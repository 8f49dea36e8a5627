/**
 The fold over lock events: per-key holdings, validator holdings, running totals
 and the owners seen for each key.
 */
module LockdropLocks {
  import opened Wrappers
  import opened Tally
  import opened LockdropKeys
  import opened LockdropHoldings
  import opened LockdropValue

  datatype LockEvent = LockEvent(owner: EthAddress, edgewareAddr: string, lockAddr: EthAddress,
                                 eth: nat, term: string, time: nat, isValidator: bool)

  datatype LockStats = LockStats(validatingLocks: map<EdgewareKey, Holding>, locks: map<EdgewareKey, Holding>,
                                 totalETHLocked: nat, totalEffectiveETHLocked: nat,
                                 totalETHLocked3mo: nat, totalETHLocked6mo: nat, totalETHLocked12mo: nat,
                                 numLocks: nat, edgAddrToETHLocks: map<EdgewareKey, seq<EthAddress>>)

  function KeyOf(e: LockEvent): EdgewareKey
  {
    FirstKey(e.edgewareAddr)
  }

  function ValueOf(e: LockEvent, start: nat): nat
  {
    EffectiveValue(e.eth, e.term, Some(e.time), Some(start))
  }

  function ContributionOf(e: LockEvent, start: nat): Contribution
  {
    Contribution(KeyOf(e), e.eth, ValueOf(e, start), e.lockAddr)
  }

  // ----- what the report should be

  function Contributions(events: seq<LockEvent>, start: nat): seq<Contribution>
  {
    if events == [] then []
    else Contributions(events[..|events| - 1], start) + [ContributionOf(events[|events| - 1], start)]
  }

  function Validators(events: seq<LockEvent>): seq<LockEvent>
  {
    if events == [] then [] else
    var rest := Validators(events[..|events| - 1]);
    if events[|events| - 1].isValidator then rest + [events[|events| - 1]] else rest
  }

  function LocksOf(events: seq<LockEvent>, start: nat): map<EdgewareKey, Holding>
  {
    HoldingsOf(Contributions(events, start), NewestFirst)
  }

  function SumEth(events: seq<LockEvent>): nat
  {
    if events == [] then 0 else SumEth(events[..|events| - 1]) + events[|events| - 1].eth
  }

  function SumEffective(events: seq<LockEvent>, start: nat): nat
  {
    if events == [] then 0
    else SumEffective(events[..|events| - 1], start) + ValueOf(events[|events| - 1], start)
  }

  function SumForTerm(events: seq<LockEvent>, term: string): nat
  {
    if events == [] then 0
    else SumForTerm(events[..|events| - 1], term) +
         if events[|events| - 1].term == term then events[|events| - 1].eth else 0
  }

  /** The owners who locked for a key, in the order they first appear. */
  function OwnersFor(events: seq<LockEvent>, key: EdgewareKey): seq<EthAddress>
  {
    if events == [] then [] else
    var earlier := OwnersFor(events[..|events| - 1], key);
    var e := events[|events| - 1];
    if KeyOf(e) == key && e.owner !in earlier then earlier + [e.owner] else earlier
  }

  function OwnersOf(events: seq<LockEvent>): map<EdgewareKey, seq<EthAddress>>
  {
    map k | k in (set e | e in events :: KeyOf(e)) :: OwnersFor(events, k)
  }

  function StatsOf(events: seq<LockEvent>, start: nat): LockStats
  {
    LockStats(LocksOf(Validators(events), start), LocksOf(events, start),
              SumEth(events), SumEffective(events, start),
              SumForTerm(events, THREE_MONTHS), SumForTerm(events, SIX_MONTHS), SumForTerm(events, TWELVE_MONTHS),
              |events|, OwnersOf(events))
  }

  // ----- the fold

  lemma NoEvents(start: nat)
    ensures LocksOf([], start) == map[] && OwnersOf([]) == map[] && Validators([]) == []
    ensures SumEth([]) == SumEffective([], start) == 0
    ensures forall term :: SumForTerm([], term) == 0
  {
  }

  lemma OneMoreEvent(events: seq<LockEvent>, e: LockEvent, start: nat)
    ensures Contributions(events + [e], start) == Contributions(events, start) + [ContributionOf(e, start)]
    ensures Validators(events + [e]) == if e.isValidator then Validators(events) + [e] else Validators(events)
    ensures SumEth(events + [e]) == SumEth(events) + e.eth
    ensures SumEffective(events + [e], start) == SumEffective(events, start) + ValueOf(e, start)
    ensures forall term :: SumForTerm(events + [e], term) ==
                           SumForTerm(events, term) + if e.term == term then e.eth else 0
  {
  }

  /** Crediting an event extends the report's grouping by exactly that event. */
  lemma LocksExtend(events: seq<LockEvent>, e: LockEvent, start: nat)
    ensures LocksOf(events + [e], start) == Credit(LocksOf(events, start), ContributionOf(e, start), NewestFirst)
  {
    hide Credit, ContributionOf, HoldingsOf, Contributions;
    OneMoreEvent(events, e, start);
    CreditExtends(Contributions(events, start), ContributionOf(e, start), NewestFirst);
  }

  function AddOwner(owners: map<EdgewareKey, seq<EthAddress>>, key: EdgewareKey, owner: EthAddress)
    : map<EdgewareKey, seq<EthAddress>>
  {
    if key in owners then
      if owner !in owners[key] then owners[key := owners[key] + [owner]] else owners
    else
      owners[key := [owner]]
  }

  lemma OwnersForExtends(events: seq<LockEvent>, e: LockEvent, key: EdgewareKey)
    ensures var earlier := OwnersFor(events, key);
      OwnersFor(events + [e], key) ==
      if KeyOf(e) == key && e.owner !in earlier then earlier + [e.owner] else earlier
  {
  }

  lemma {:induction false} OwnersForUnseenKey(events: seq<LockEvent>, key: EdgewareKey)
    requires forall e :: e in events ==> KeyOf(e) != key
    ensures OwnersFor(events, key) == []
  {
    if events != [] {
      assert events[|events| - 1] in events;
      OwnersForUnseenKey(events[..|events| - 1], key);
    }
  }

  lemma OwnerKeysExtend(events: seq<LockEvent>, e: LockEvent)
    ensures OwnersOf(events + [e]).Keys == OwnersOf(events).Keys + {KeyOf(e)}
  {
    hide OwnersFor, KeyOf;
  }

  lemma OtherOwnersStay(events: seq<LockEvent>, e: LockEvent, k: EdgewareKey)
    requires k in OwnersOf(events) && k != KeyOf(e)
    ensures k in OwnersOf(events + [e]) && OwnersOf(events + [e])[k] == OwnersOf(events)[k]
  {
    hide OwnersFor, KeyOf;
    OwnersForExtends(events, e, k);
  }

  lemma OwnOwnersExtend(events: seq<LockEvent>, e: LockEvent)
    ensures KeyOf(e) in OwnersOf(events + [e])
    ensures OwnersOf(events + [e])[KeyOf(e)] == AddOwner(OwnersOf(events), KeyOf(e), e.owner)[KeyOf(e)]
  {
    hide OwnersFor, KeyOf;
    OwnersForExtends(events, e, KeyOf(e));
    if KeyOf(e) !in OwnersOf(events) {
      OwnersForUnseenKey(events, KeyOf(e));
    }
  }

  /** The owner bookkeeping extends the same way. */
  lemma OwnersExtend(events: seq<LockEvent>, e: LockEvent)
    ensures OwnersOf(events + [e]) == AddOwner(OwnersOf(events), KeyOf(e), e.owner)
  {
    hide OwnersOf, KeyOf;
    var before, after, key := OwnersOf(events), OwnersOf(events + [e]), KeyOf(e);
    OwnerKeysExtend(events, e);
    OwnOwnersExtend(events, e);
    forall k | k in before && k != key ensures after[k] == before[k] {
      OtherOwnersStay(events, e, k);
    }
    IsUpdate(before, after, key, AddOwner(before, key, e.owner)[key]);
  }

  /** The accumulated report over any event list is the grouping of that list. */
  method CalculateEffectiveLocks(lockEvents: seq<LockEvent>, lockdropStartTime: nat) returns (stats: LockStats)
    ensures stats == StatsOf(lockEvents, lockdropStartTime)
  {
    hide LocksOf, OwnersOf, Credit, AddOwner, Validators, SumEth, SumEffective, SumForTerm, EffectiveValue, FirstKey;
    NoEvents(lockdropStartTime);
    var totalETHLocked: nat, totalEffectiveETHLocked: nat := 0, 0;
    var totalETHLocked3mo: nat, totalETHLocked6mo: nat, totalETHLocked12mo: nat := 0, 0, 0;
    var locks: map<EdgewareKey, Holding>, validatingLocks: map<EdgewareKey, Holding> := map[], map[];
    var edgAddrToETH: map<EdgewareKey, seq<EthAddress>> := map[];

    for i := 0 to |lockEvents|
      invariant locks == LocksOf(lockEvents[..i], lockdropStartTime)
      invariant validatingLocks == LocksOf(Validators(lockEvents[..i]), lockdropStartTime)
      invariant edgAddrToETH == OwnersOf(lockEvents[..i])
      invariant totalETHLocked == SumEth(lockEvents[..i])
      invariant totalEffectiveETHLocked == SumEffective(lockEvents[..i], lockdropStartTime)
      invariant totalETHLocked3mo == SumForTerm(lockEvents[..i], THREE_MONTHS)
      invariant totalETHLocked6mo == SumForTerm(lockEvents[..i], SIX_MONTHS)
      invariant totalETHLocked12mo == SumForTerm(lockEvents[..i], TWELVE_MONTHS)
    {
      var data := lockEvents[i];
      ghost var done := lockEvents[..i];
      assert lockEvents[..i + 1] == done + [data];
      OneMoreEvent(done, data, lockdropStartTime);
      LocksExtend(done, data, lockdropStartTime);
      LocksExtend(Validators(done), data, lockdropStartTime);
      OwnersExtend(done, data);

      var key := FirstKey(data.edgewareAddr);
      edgAddrToETH := AddOwner(edgAddrToETH, key, data.owner);

      var value := EffectiveValue(data.eth, data.term, Some(data.time), Some(lockdropStartTime));
      totalETHLocked := totalETHLocked + data.eth;
      totalEffectiveETHLocked := totalEffectiveETHLocked + value;
      if data.term == THREE_MONTHS {
        totalETHLocked3mo := totalETHLocked3mo + data.eth;
      } else if data.term == SIX_MONTHS {
        totalETHLocked6mo := totalETHLocked6mo + data.eth;
      } else if data.term == TWELVE_MONTHS {
        totalETHLocked12mo := totalETHLocked12mo + data.eth;
      }

      var contribution := Contribution(key, data.eth, value, data.lockAddr);
      if data.isValidator {
        validatingLocks := Credit(validatingLocks, contribution, NewestFirst);
      }
      locks := Credit(locks, contribution, NewestFirst);
    }
    assert lockEvents[..|lockEvents|] == lockEvents;
    stats := LockStats(validatingLocks, locks, totalETHLocked, totalEffectiveETHLocked,
                       totalETHLocked3mo, totalETHLocked6mo, totalETHLocked12mo, |lockEvents|, edgAddrToETH);
  }

  // ----- conservation

  function LockAddrs(events: seq<LockEvent>): multiset<EthAddress>
  {
    if events == [] then multiset{}
    else LockAddrs(events[..|events| - 1]) + multiset{events[|events| - 1].lockAddr}
  }

  lemma {:induction false} ContributionSums(events: seq<LockEvent>, start: nat)
    ensures SumAmount(Contributions(events, start)) == SumEth(events)
    ensures SumValue(Contributions(events, start)) == SumEffective(events, start)
    ensures multiset(Addrs(Contributions(events, start), NewestFirst)) == LockAddrs(events)
  {
    if events != [] {
      hide ContributionOf, ValueOf;
      var n := |events| - 1;
      ContributionSums(events[..n], start);
      SumsSnoc(Contributions(events[..n], start), ContributionOf(events[n], start), NewestFirst);
      ContributionFields(events[n], start);
    }
  }

  lemma ContributionFields(e: LockEvent, start: nat)
    ensures ContributionOf(e, start) == Contribution(KeyOf(e), e.eth, ValueOf(e, start), e.lockAddr)
  {
  }

  /**
   Nothing is lost or counted twice: over any event list the per-key amounts add up to
   the total locked, the per-key effective values to the effective total, and the
   address lists together hold every event's lock address exactly as often as it occurs.
   */
  lemma LocksConserveTotals(events: seq<LockEvent>, start: nat)
    ensures var stats := StatsOf(events, start);
      && MapSum(Amounts(stats.locks)) == stats.totalETHLocked
      && MapSum(Effectives(stats.locks)) == stats.totalEffectiveETHLocked
      && MapUnion(AddrLists(stats.locks)) == LockAddrs(events)
  {
    hide HoldingsOf, Contributions, Amounts, Effectives, AddrLists, MapSum, MapUnion, OwnersOf;
    GroupingConserves(Contributions(events, start), NewestFirst);
    ContributionSums(events, start);
  }

  // ----- validators

  lemma {:induction false} ValidatorHoldingWithin(events: seq<LockEvent>, start: nat, key: EdgewareKey)
    ensures Within(HoldingOf(ForKey(Contributions(Validators(events), start), key), NewestFirst),
                   HoldingOf(ForKey(Contributions(events, start), key), NewestFirst))
  {
    if events != [] {
      hide Contributions, Validators, ContributionOf, HoldingOf, ForKey, Keys, Within, KeyOf, Increased;
      var n := |events| - 1;
      var done, e := events[..n], events[n];
      assert events == done + [e];
      ValidatorHoldingWithin(done, start, key);
      OneMoreEvent(done, e, start);
      OneMoreEvent(Validators(done), e, start);
      var c := ContributionOf(e, start);
      ContributionFields(e, start);
      var all, some := Contributions(done, start), Contributions(Validators(done), start);
      HoldingExtends(all, c, NewestFirst, key);
      HoldingExtends(some, c, NewestFirst, key);
      WithinExtends(HoldingOf(ForKey(some, key), NewestFirst), HoldingOf(ForKey(all, key), NewestFirst), c, NewestFirst);
    }
  }

  lemma {:induction false} KeysOfContributions(events: seq<LockEvent>, start: nat, key: EdgewareKey)
    ensures key in Keys(Contributions(events, start)) <==> exists e :: e in events && KeyOf(e) == key
  {
    if events != [] {
      hide Contributions, ContributionOf, Keys, KeyOf;
      var n := |events| - 1;
      assert events == events[..n] + [events[n]];
      assert forall x :: x in events <==> x in events[..n] || x == events[n];
      KeysOfContributions(events[..n], start, key);
      OneMoreEvent(events[..n], events[n], start);
      ContributionFields(events[n], start);
      KeysSnoc(Contributions(events[..n], start), ContributionOf(events[n], start));
    }
  }

  lemma {:induction false} ValidatorMembers(events: seq<LockEvent>)
    ensures forall e :: e in Validators(events) <==> e in events && e.isValidator
  {
    if events != [] {
      var n := |events| - 1;
      assert events == events[..n] + [events[n]];
      ValidatorMembers(events[..n]);
    }
  }

  /**
   The validator holdings are pointwise within the full holdings: a validator key is a
   lock key, its amount and effective value are no larger, and its addresses are among
   the key's addresses. A key is a validator key exactly when one of its locks says so.
   */
  lemma ValidatorsWithinLocks(events: seq<LockEvent>, start: nat, key: EdgewareKey)
    ensures var stats := StatsOf(events, start);
      && (key in stats.validatingLocks <==> exists e :: e in events && e.isValidator && KeyOf(e) == key)
      && (key in stats.validatingLocks ==>
            key in stats.locks && Within(stats.validatingLocks[key], stats.locks[key]))
  {
    hide Contributions, Validators, HoldingOf, ForKey, Keys, Within, KeyOf, OwnersOf;
    ValidatorHoldingWithin(events, start, key);
    KeysOfContributions(events, start, key);
    KeysOfContributions(Validators(events), start, key);
    ValidatorMembers(events);
  }

  // ----- owners

  /** An owner listed once keeps the place, whatever is locked later. */
  lemma {:induction false} OwnersKeepTheirPlace(events: seq<LockEvent>, n: nat, key: EdgewareKey)
    requires n <= |events|
    ensures OwnersFor(events[..n], key) <= OwnersFor(events, key)
  {
    if n == |events| {
      assert events[..n] == events;
    } else {
      var m := |events| - 1;
      assert events == events[..m] + [events[m]] && events[..m][..n] == events[..n];
      OwnersKeepTheirPlace(events[..m], n, key);
      OwnersForExtends(events[..m], events[m], key);
    }
  }

  /** Each key lists every owner who locked for it, once. */
  lemma {:induction false} OwnersAreDistinctAndComplete(events: seq<LockEvent>, key: EdgewareKey)
    ensures var owners := OwnersFor(events, key);
      && (forall i, j :: 0 <= i < j < |owners| ==> owners[i] != owners[j])
      && (forall o :: o in owners <==> exists e :: e in events && KeyOf(e) == key && e.owner == o)
  {
    if events != [] {
      hide KeyOf, OwnersFor;
      var n := |events| - 1;
      var done, e := events[..n], events[n];
      assert events == done + [e];
      assert forall x :: x in events <==> x in done || x == e;
      OwnersAreDistinctAndComplete(done, key);
      OwnersForExtends(done, e, key);
      var earlier, owners := OwnersFor(done, key), OwnersFor(events, key);
      forall i, j | 0 <= i < j < |owners| ensures owners[i] != owners[j] {
        assert owners[i] == earlier[i];
      }
    } else {
      assert OwnersFor(events, key) == [];
    }
  }

  // ----- bounds on the totals

  /** The value of one event against the three terms; at most one of the summands is not zero. */
  lemma TermValueBounds(e: LockEvent, start: nat)
    ensures var t3 := if e.term == THREE_MONTHS then e.eth else 0;
      var t6 := if e.term == SIX_MONTHS then e.eth else 0;
      var t12 := if e.term == TWELVE_MONTHS then e.eth else 0;
      && t3 + t6 + t12 <= e.eth
      && t3 + t6 + t12 <= ValueOf(e, start)
      && (IsLockTerm(e.term) ==> t3 + t6 + t12 == e.eth)
      && (e.term != SIGNALING ==> 100 * ValueOf(e, start) <= 150 * t3 + 195 * t6 + 330 * t12)
  {
  }

  ghost predicate AllLockTerms(events: seq<LockEvent>)
  {
    forall e :: e in events ==> IsLockTerm(e.term)
  }

  ghost predicate NoneSignaling(events: seq<LockEvent>)
  {
    forall e :: e in events ==> e.term != SIGNALING
  }

  lemma TermsSnoc(events: seq<LockEvent>, e: LockEvent)
    ensures AllLockTerms(events + [e]) ==> AllLockTerms(events) && IsLockTerm(e.term)
    ensures NoneSignaling(events + [e]) ==> NoneSignaling(events) && e.term != SIGNALING
  {
    hide IsLockTerm;
    assert e in events + [e];
    assert forall x :: x in events ==> x in events + [e];
  }

  lemma {:induction false} TermTotalBounds(events: seq<LockEvent>, start: nat)
    ensures var t3, t6, t12 := SumForTerm(events, THREE_MONTHS), SumForTerm(events, SIX_MONTHS), SumForTerm(events, TWELVE_MONTHS);
      && t3 + t6 + t12 <= SumEth(events)
      && t3 + t6 + t12 <= SumEffective(events, start)
      && (AllLockTerms(events) ==> t3 + t6 + t12 == SumEth(events))
      && (NoneSignaling(events) ==> 100 * SumEffective(events, start) <= 150 * t3 + 195 * t6 + 330 * t12)
  {
    hide *;
    if events == [] {
      NoEvents(start);
    } else {
      var n := |events| - 1;
      assert events == events[..n] + [events[n]];
      TermTotalBounds(events[..n], start);
      OneMoreEvent(events[..n], events[n], start);
      TermValueBounds(events[n], start);
      TermsSnoc(events[..n], events[n]);
    }
  }

  /**
   The term totals never exceed the total, and partition it when every term is valid.
   The effective total is at least their sum; it is at most 1.5, 1.95 and 3.3 times
   the respective totals, since an invalid term earns nothing.
   ("signaling" is a value of the same multiplier table, never the term of a lock.)
   */
  lemma EffectiveTotalBounds(events: seq<LockEvent>, start: nat)
    ensures var s := StatsOf(events, start);
      var t3, t6, t12 := s.totalETHLocked3mo, s.totalETHLocked6mo, s.totalETHLocked12mo;
      && t3 + t6 + t12 <= s.totalETHLocked
      && t3 + t6 + t12 <= s.totalEffectiveETHLocked
      && (AllLockTerms(events) ==> t3 + t6 + t12 == s.totalETHLocked)
      && (NoneSignaling(events) ==> 100 * s.totalEffectiveETHLocked <= 150 * t3 + 195 * t6 + 330 * t12)
  {
    hide LocksOf, OwnersOf, Validators, SumEth, SumEffective, SumForTerm;
    TermTotalBounds(events, start);
  }

  // ----- the holding of one key

  /** Whether an event counts for a key, among all events or among those of validators. */
  predicate CountsFor(e: LockEvent, key: EdgewareKey, validatorsOnly: bool)
  {
    KeyOf(e) == key && (validatorsOnly ==> e.isValidator)
  }

  /** The holding of one key, added up event by event; its newest address comes first. */
  function HoldingFor(events: seq<LockEvent>, start: nat, key: EdgewareKey, validatorsOnly: bool): Holding
  {
    if events == [] then Holding(0, 0, []) else
    var e, earlier := events[|events| - 1], HoldingFor(events[..|events| - 1], start, key, validatorsOnly);
    if CountsFor(e, key, validatorsOnly) then
      Holding(earlier.amount + e.eth, earlier.effective + ValueOf(e, start), [e.lockAddr] + earlier.addrs)
    else earlier
  }

  lemma HoldingForSnoc(events: seq<LockEvent>, e: LockEvent, start: nat, key: EdgewareKey, validatorsOnly: bool)
    ensures var earlier := HoldingFor(events, start, key, validatorsOnly);
      HoldingFor(events + [e], start, key, validatorsOnly) ==
      if CountsFor(e, key, validatorsOnly) then
        Holding(earlier.amount + e.eth, earlier.effective + ValueOf(e, start), [e.lockAddr] + earlier.addrs)
      else earlier
  {
    assert (events + [e])[..|events|] == events;
  }

  lemma {:induction false} GroupIsHolding(events: seq<LockEvent>, start: nat, key: EdgewareKey)
    ensures HoldingOf(ForKey(Contributions(events, start), key), NewestFirst) == HoldingFor(events, start, key, false)
  {
    hide *;
    if events == [] {
      NothingHeld(start, key);
    } else {
      var n := |events| - 1;
      var done, e := events[..n], events[n];
      var c := ContributionOf(e, start);
      assert events == done + [e];
      GroupIsHolding(done, start, key);
      OneMoreEvent(done, e, start);
      HoldingForSnoc(done, e, start, key, false);
      ContributionFields(e, start);
      HoldingExtends(Contributions(done, start), c, NewestFirst, key);
      IncreasedByLock(HoldingFor(done, start, key, false), c);
      CountsForKey(e, key, false);
    }
  }

  lemma NothingHeld(start: nat, key: EdgewareKey)
    ensures HoldingOf(ForKey(Contributions([], start), key), NewestFirst) == HoldingFor([], start, key, false)
  {
  }

  lemma {:induction false} ValidatorsHold(events: seq<LockEvent>, start: nat, key: EdgewareKey)
    ensures HoldingFor(Validators(events), start, key, false) == HoldingFor(events, start, key, true)
  {
    if events != [] {
      hide HoldingFor, ValueOf, Validators;
      var n := |events| - 1;
      var done, e := events[..n], events[n];
      assert events == done + [e];
      ValidatorsHold(done, start, key);
      ValidatorsSnoc(done, e);
      HoldingForSnoc(Validators(done), e, start, key, false);
      HoldingForSnoc(done, e, start, key, true);
    }
  }

  lemma ValidatorsSnoc(events: seq<LockEvent>, e: LockEvent)
    ensures Validators(events + [e]) == if e.isValidator then Validators(events) + [e] else Validators(events)
  {
    assert (events + [e])[..|events|] == events;
  }

  lemma IncreasedByLock(x: Holding, c: Contribution)
    ensures Increased(x, c, NewestFirst) == Holding(x.amount + c.amount, x.effective + c.value, [c.addr] + x.addrs)
  {
  }

  lemma CountsForKey(e: LockEvent, key: EdgewareKey, validatorsOnly: bool)
    ensures CountsFor(e, key, validatorsOnly) <==> KeyOf(e) == key && (validatorsOnly ==> e.isValidator)
  {
  }

  /** The report holds for each key what its own locks, or its own validators' locks, add up to. */
  lemma LocksPerKey(events: seq<LockEvent>, start: nat, key: EdgewareKey)
    ensures var stats := StatsOf(events, start);
      && (key in stats.locks <==> exists e :: e in events && KeyOf(e) == key)
      && (key in stats.locks ==> stats.locks[key] == HoldingFor(events, start, key, false))
      && (key in stats.validatingLocks ==> stats.validatingLocks[key] == HoldingFor(events, start, key, true))
      && (key in stats.edgAddrToETHLocks <==> key in stats.locks)
      && (key in stats.edgAddrToETHLocks ==> stats.edgAddrToETHLocks[key] == OwnersFor(events, key))
      && stats.numLocks == |events|
  {
    hide Contributions, Validators, HoldingOf, ForKey, Keys, KeyOf, HoldingFor;
    GroupIsHolding(events, start, key);
    GroupIsHolding(Validators(events), start, key);
    ValidatorsHold(events, start, key);
    KeysOfContributions(events, start, key);
    OwnerKeys(events, key);
  }

  lemma OwnerKeys(events: seq<LockEvent>, key: EdgewareKey)
    ensures key in OwnersOf(events) <==> exists e :: e in events && KeyOf(e) == key
  {
    hide OwnersFor, KeyOf;
  }

  lemma {:induction false} HoldingForLists(events: seq<LockEvent>, start: nat, key: EdgewareKey, e: LockEvent)
    requires e in events && KeyOf(e) == key
    ensures var x := HoldingFor(events, start, key, false);
      e.lockAddr in x.addrs && e.eth <= x.amount && ValueOf(e, start) <= x.effective
  {
    hide KeyOf, ValueOf;
    var n := |events| - 1;
    assert events == events[..n] + [events[n]];
    HoldingForSnoc(events[..n], events[n], start, key, false);
    if e != events[n] {
      HoldingForLists(events[..n], start, key, e);
    }
  }

  /** A lock submitted with an ordinary key, alone or first of several, is found in the report under that very key. */
  lemma OrdinaryLockIsReported(events: seq<LockEvent>, start: nat, e: LockEvent, s: string, rest: string)
    requires e in events && IsOrdinaryKey(s) && e.edgewareAddr == s + rest
    ensures var stats := StatsOf(events, start);
      && EdgewareKey(s) in stats.locks && EdgewareKey(s) in stats.edgAddrToETHLocks
      && e.lockAddr in stats.locks[EdgewareKey(s)].addrs && e.eth <= stats.locks[EdgewareKey(s)].amount
      && e.owner in stats.edgAddrToETHLocks[EdgewareKey(s)]
      && (e.isValidator ==> EdgewareKey(s) in stats.validatingLocks)
  {
    OrdinaryKeyIsItself(s, rest);
    assert KeyOf(e) == EdgewareKey(s);
    hide KeyOf, HoldingFor, OwnersFor, StatsOf;
    LocksPerKey(events, start, EdgewareKey(s));
    HoldingForLists(events, start, EdgewareKey(s), e);
    OwnersAreDistinctAndComplete(events, EdgewareKey(s));
    ValidatorsWithinLocks(events, start, EdgewareKey(s));
  }

  /** The value of every reported lock follows the tariff of its term and time. */
  lemma LockValueOfEvent(e: LockEvent, start: nat)
    requires e.term != "signaling"
    ensures var exact := e.eth * (TermPercent(e.term) * BonusOfPeriod(e.time - FirstDeadline()));
      10000 * ValueOf(e, start) <= exact < 10000 * ValueOf(e, start) + 10000
  {
    hide EffectiveValue;
    LockValueByTariff(e.eth, e.term, e.time, start);
  }

  /** One more lock adds its amount to the total and to that of its term, and its value to the effective total. */
  lemma TotalsByTerm(events: seq<LockEvent>, e: LockEvent, start: nat)
    ensures var before, after := StatsOf(events, start), StatsOf(events + [e], start);
      && after.totalETHLocked == before.totalETHLocked + e.eth
      && after.totalEffectiveETHLocked == before.totalEffectiveETHLocked + ValueOf(e, start)
      && after.totalETHLocked3mo == before.totalETHLocked3mo + (if e.term == "0" then e.eth else 0)
      && after.totalETHLocked6mo == before.totalETHLocked6mo + (if e.term == "1" then e.eth else 0)
      && after.totalETHLocked12mo == before.totalETHLocked12mo + (if e.term == "2" then e.eth else 0)
  {
    hide LocksOf, OwnersOf, Validators, SumEth, SumEffective, SumForTerm, ValueOf;
    OneMoreEvent(events, e, start);
  }
}
