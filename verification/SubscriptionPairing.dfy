/**
 The migration that adds missing reaction subscriptions. For each user it pairs up the
 subscriptions of the same object by repeatedly splicing two of them out of an array; what
 finds no partner gets a reaction subscription.
 */
module SubscriptionPairing {

  datatype Category = NewComment | NewReaction

  datatype Subscription = Subscription(category: Category, objectId: string, isActive: bool)

  /** How many subscriptions are for an object. */
  function Count(subs: seq<Subscription>, objectId: string): nat
  {
    if subs == [] then 0 else (if subs[0].objectId == objectId then 1 else 0) + Count(subs[1..], objectId)
  }

  function CountOf(subs: seq<Subscription>, objectId: string, category: Category): nat
  {
    if subs == [] then 0
    else (if subs[0].objectId == objectId && subs[0].category == category then 1 else 0) + CountOf(subs[1..], objectId, category)
  }

  predicate Mentions(subs: seq<Subscription>, objectId: string)
  {
    exists i :: 0 <= i < |subs| && subs[i].objectId == objectId
  }

  /** Takes the subscriptions of an object out of a list. */
  function Without(subs: seq<Subscription>, objectId: string): seq<Subscription>
  {
    if subs == [] then []
    else if subs[0].objectId == objectId then Without(subs[1..], objectId)
    else [subs[0]] + Without(subs[1..], objectId)
  }

  /** One pass from the left: a subscription cancels the unpaired one of its object, or waits for one. */
  function Toggle(waiting: seq<Subscription>, s: Subscription): seq<Subscription>
  {
    if Mentions(waiting, s.objectId) then Without(waiting, s.objectId) else waiting + [s]
  }

  function Unpaired(waiting: seq<Subscription>, subs: seq<Subscription>): seq<Subscription>
    decreases |subs|
  {
    if subs == [] then waiting else Unpaired(Toggle(waiting, subs[0]), subs[1..])
  }

  // ----- pairing by splicing is the one pass

  lemma {:induction false} WithoutUnmentioned(subs: seq<Subscription>, objectId: string)
    requires !Mentions(subs, objectId)
    ensures Without(subs, objectId) == subs
    decreases |subs|
  {
    if subs != [] {
      assert subs[0].objectId != objectId;
      MentionsTail(subs, objectId);
      WithoutUnmentioned(subs[1..], objectId);
    }
  }

  lemma MentionsTail(subs: seq<Subscription>, objectId: string)
    requires subs != []
    ensures Mentions(subs, objectId) <==> subs[0].objectId == objectId || Mentions(subs[1..], objectId)
  {
  }

  lemma ToggleAfterFirst(x: Subscription, waiting: seq<Subscription>, s: Subscription)
    requires s.objectId != x.objectId
    ensures Toggle([x] + waiting, s) == [x] + Toggle(waiting, s)
  {
    assert ([x] + waiting)[1..] == waiting;
    MentionsTail([x] + waiting, s.objectId);
    assert [x] + (waiting + [s]) == ([x] + waiting) + [s];
  }

  /** A waiting subscription stays in front while nothing of its object comes along. */
  lemma {:induction false} FirstKeepsWaiting(x: Subscription, waiting: seq<Subscription>, subs: seq<Subscription>)
    requires !Mentions(subs, x.objectId)
    ensures Unpaired([x] + waiting, subs) == [x] + Unpaired(waiting, subs)
    decreases |subs|
  {
    if subs != [] {
      hide Toggle;
      MentionsTail(subs, x.objectId);
      ToggleAfterFirst(x, waiting, subs[0]);
      FirstKeepsWaiting(x, Toggle(waiting, subs[0]), subs[1..]);
    }
  }

  lemma {:induction false} UnpairedConcat(waiting: seq<Subscription>, a: seq<Subscription>, b: seq<Subscription>)
    ensures Unpaired(waiting, a + b) == Unpaired(Unpaired(waiting, a), b)
    decreases |a|
  {
    if a == [] {
      assert a + b == b;
    } else {
      hide Toggle;
      assert (a + b)[1..] == a[1..] + b;
      UnpairedConcat(Toggle(waiting, a[0]), a[1..], b);
    }
  }

  lemma {:induction false} UnpairedNotMentioned(waiting: seq<Subscription>, subs: seq<Subscription>, objectId: string)
    requires !Mentions(waiting, objectId) && !Mentions(subs, objectId)
    ensures !Mentions(Unpaired(waiting, subs), objectId)
    decreases |subs|
  {
    if subs != [] {
      hide Toggle;
      MentionsTail(subs, objectId);
      ToggleMentions(waiting, subs[0], objectId);
      UnpairedNotMentioned(Toggle(waiting, subs[0]), subs[1..], objectId);
    }
  }

  lemma {:induction false} WithoutMembers(subs: seq<Subscription>, objectId: string)
    ensures forall s :: s in Without(subs, objectId) <==> s in subs && s.objectId != objectId
  {
    if subs != [] {
      WithoutMembers(subs[1..], objectId);
    }
  }

  lemma ToggleMentions(waiting: seq<Subscription>, s: Subscription, objectId: string)
    ensures Mentions(Toggle(waiting, s), objectId) <==> Mentions(waiting, objectId) != (s.objectId == objectId)
  {
    var after := Toggle(waiting, s);
    if Mentions(waiting, s.objectId) {
      WithoutMembers(waiting, s.objectId);
      if Mentions(waiting, objectId) {
        var i :| 0 <= i < |waiting| && waiting[i].objectId == objectId;
        if objectId != s.objectId {
          assert waiting[i] in after;
        }
      }
      if Mentions(after, objectId) {
        var i :| 0 <= i < |after| && after[i].objectId == objectId;
        assert after[i] in after;
      }
    } else {
      assert after[|waiting|] == s;
      if Mentions(waiting, objectId) {
        var i :| 0 <= i < |waiting| && waiting[i].objectId == objectId;
        assert after[i] == waiting[i];
      }
    }
  }

  /** Splicing out the first subscription and the next one of its object leaves the same unpaired ones. */
  lemma PairCancels(x: Subscription, between: seq<Subscription>, y: Subscription, after: seq<Subscription>)
    requires y.objectId == x.objectId && !Mentions(between, x.objectId)
    ensures Unpaired([], [x] + between + [y] + after) == Unpaired([], between + after)
  {
    hide Toggle;
    var rest := Unpaired([], between);
    UnpairedConcat([], [x] + between + [y], after);
    UnpairedConcat([], [x] + between, [y]);
    UnpairedConcat([], [x], between);
    UnpairedConcat([], between, after);
    UnpairedOne([], x);
    UnpairedOne([x] + rest, y);
    FirstKeepsWaiting(x, [], between);
    UnpairedNotMentioned([], between, x.objectId);
    assert [x] + [] == [x];
    CancelFirst(x, rest, y);
  }

  lemma UnpairedOne(waiting: seq<Subscription>, s: Subscription)
    ensures Unpaired(waiting, [s]) == Toggle(waiting, s)
    ensures waiting == [] ==> Toggle(waiting, s) == [s]
  {
  }

  lemma CancelFirst(x: Subscription, rest: seq<Subscription>, y: Subscription)
    requires y.objectId == x.objectId && !Mentions(rest, x.objectId)
    ensures Toggle([x] + rest, y) == rest
  {
    var waiting := [x] + rest;
    assert waiting[0].objectId == y.objectId && waiting[1..] == rest;
    WithoutUnmentioned(rest, x.objectId);
  }

  lemma FirstUnpaired(x: Subscription, rest: seq<Subscription>)
    requires !Mentions(rest, x.objectId)
    ensures Unpaired([], [x] + rest) == [x] + Unpaired([], rest)
  {
    hide Toggle;
    UnpairedConcat([], [x], rest);
    UnpairedOne([], x);
    assert [x] + [] == [x];
    FirstKeepsWaiting(x, [], rest);
  }

  method FindIndex(subscriptions: seq<Subscription>, objectId: string) returns (i: int)
    ensures -1 <= i < |subscriptions|
    ensures i == -1 ==> !Mentions(subscriptions, objectId)
    ensures i >= 0 ==> subscriptions[i].objectId == objectId && !Mentions(subscriptions[..i], objectId)
  {
    i := 0;
    while i < |subscriptions|
      invariant 0 <= i <= |subscriptions|
      invariant !Mentions(subscriptions[..i], objectId)
    {
      if subscriptions[i].objectId == objectId {
        return;
      }
      MentionsSnoc(subscriptions[..i], subscriptions[i], objectId);
      assert subscriptions[..i + 1] == subscriptions[..i] + [subscriptions[i]];
      i := i + 1;
    }
    assert subscriptions[..|subscriptions|] == subscriptions;
    return -1;
  }

  lemma MentionsSnoc(subs: seq<Subscription>, s: Subscription, objectId: string)
    ensures Mentions(subs + [s], objectId) <==> Mentions(subs, objectId) || s.objectId == objectId
  {
    if Mentions(subs, objectId) {
      var i :| 0 <= i < |subs| && subs[i].objectId == objectId;
      assert (subs + [s])[i] == subs[i];
    }
    assert (subs + [s])[|subs|] == s;
  }

  /** The splicing loop ends and leaves the subscriptions the one pass leaves unpaired, in the same order. */
  method FindOrphans(resSubs: seq<Subscription>) returns (orphaned: seq<Subscription>)
    ensures orphaned == Unpaired([], resSubs)
  {
    hide Unpaired;
    var subscriptions := resSubs;
    orphaned := [];
    NothingUnpaired();
    while |subscriptions| > 0
      invariant orphaned + Unpaired([], subscriptions) == Unpaired([], resSubs)
      decreases |subscriptions|
    {
      var subscription1 := subscriptions[0];
      ghost var all := subscriptions;
      subscriptions := subscriptions[1..];
      assert all == [subscription1] + subscriptions;
      var subscription2 := FindIndex(subscriptions, subscription1.objectId);
      if subscription2 == -1 {
        FirstUnpaired(subscription1, subscriptions);
        assert (orphaned + [subscription1]) + Unpaired([], subscriptions) ==
               orphaned + ([subscription1] + Unpaired([], subscriptions));
        orphaned := orphaned + [subscription1];
      } else {
        var j := subscription2;
        assert all == [subscription1] + subscriptions[..j] + [subscriptions[j]] + subscriptions[j + 1..];
        PairCancels(subscription1, subscriptions[..j], subscriptions[j], subscriptions[j + 1..]);
        subscriptions := subscriptions[..j] + subscriptions[j + 1..];
      }
    }
    assert orphaned + [] == orphaned;
  }

  lemma NothingUnpaired()
    ensures Unpaired([], []) == []
  {
  }

  // ----- who is left over

  lemma {:induction false} CountConcat(a: seq<Subscription>, b: seq<Subscription>, objectId: string)
    ensures Count(a + b, objectId) == Count(a, objectId) + Count(b, objectId)
    decreases |a|
  {
    if a == [] {
      assert a + b == b;
    } else {
      assert (a + b)[1..] == a[1..] + b;
      CountConcat(a[1..], b, objectId);
    }
  }

  lemma {:induction false} CountMentions(subs: seq<Subscription>, objectId: string)
    ensures Count(subs, objectId) > 0 <==> Mentions(subs, objectId)
    decreases |subs|
  {
    if subs != [] {
      MentionsTail(subs, objectId);
      CountMentions(subs[1..], objectId);
    }
  }

  lemma {:induction false} CountWithout(subs: seq<Subscription>, removed: string, objectId: string)
    ensures Count(Without(subs, removed), objectId) == if objectId == removed then 0 else Count(subs, objectId)
    decreases |subs|
  {
    if subs != [] {
      CountWithout(subs[1..], removed, objectId);
      if subs[0].objectId != removed {
        assert ([subs[0]] + Without(subs[1..], removed))[1..] == Without(subs[1..], removed);
      }
    }
  }

  lemma CountToggle(waiting: seq<Subscription>, s: Subscription, objectId: string)
    requires Count(waiting, objectId) <= 1
    ensures Count(Toggle(waiting, s), objectId) ==
            if s.objectId == objectId then 1 - Count(waiting, objectId) else Count(waiting, objectId)
  {
    CountMentions(waiting, s.objectId);
    CountWithout(waiting, s.objectId, objectId);
    CountConcat(waiting, [s], objectId);
    assert [s][1..] == [];
  }

  lemma SameParity(a: nat, b: nat)
    requires b == a || b == a + 2
    ensures a % 2 == b % 2
  {
  }

  lemma CountFirst(subs: seq<Subscription>, objectId: string)
    requires subs != []
    ensures Count(subs, objectId) == (if subs[0].objectId == objectId then 1 else 0) + Count(subs[1..], objectId)
  {
  }

  lemma {:induction false} CountUnpaired(waiting: seq<Subscription>, subs: seq<Subscription>, objectId: string)
    requires Count(waiting, objectId) <= 1
    ensures Count(Unpaired(waiting, subs), objectId) == (Count(waiting, objectId) + Count(subs, objectId)) % 2
    decreases |subs|
  {
    if subs != [] {
      hide Toggle, Count;
      var next := Toggle(waiting, subs[0]);
      CountFirst(subs, objectId);
      CountToggle(waiting, subs[0], objectId);
      CountUnpaired(next, subs[1..], objectId);
      SameParity(Count(next, objectId) + Count(subs[1..], objectId), Count(waiting, objectId) + Count(subs, objectId));
    }
  }

  /** The last subscription of an object. */
  ghost predicate IsLastOf(subs: seq<Subscription>, s: Subscription)
  {
    exists i :: 0 <= i < |subs| && subs[i] == s && !Mentions(subs[i + 1..], s.objectId)
  }

  lemma IsLastOfCons(x: Subscription, subs: seq<Subscription>, s: Subscription)
    requires IsLastOf(subs, s)
    ensures IsLastOf([x] + subs, s)
  {
    var i :| 0 <= i < |subs| && subs[i] == s && !Mentions(subs[i + 1..], s.objectId);
    assert ([x] + subs)[i + 1] == s && ([x] + subs)[i + 2..] == subs[i + 1..];
  }

  lemma ToggleMembers(waiting: seq<Subscription>, x: Subscription, s: Subscription)
    ensures s in Toggle(waiting, x) ==> s == x || (s in waiting && s.objectId != x.objectId)
  {
    WithoutMembers(waiting, x.objectId);
  }

  lemma {:induction false} UnpairedIsLast(waiting: seq<Subscription>, subs: seq<Subscription>, s: Subscription)
    requires s in Unpaired(waiting, subs)
    ensures IsLastOf(subs, s) || (s in waiting && !Mentions(subs, s.objectId))
    decreases |subs|
  {
    if subs != [] {
      var x, rest := subs[0], subs[1..];
      ToggleMembers(waiting, x, s);
      hide Toggle, Mentions;
      UnpairedIsLast(Toggle(waiting, x), rest, s);
      assert subs == [x] + rest;
      MentionsTail(subs, s.objectId);
      if IsLastOf(rest, s) {
        IsLastOfCons(x, rest, s);
      } else if s == x {
        assert subs[0] == s && subs[1..] == rest;
      }
    }
  }

  /**
   Every object is left over as often as its number of subscriptions is odd, that is at most
   once, and what is left over is its last subscription.
   */
  lemma OrphansAreOddOnes(subs: seq<Subscription>, objectId: string)
    ensures Count(Unpaired([], subs), objectId) == Count(subs, objectId) % 2
    ensures forall s :: s in Unpaired([], subs) ==> s in subs && IsLastOf(subs, s)
  {
    CountUnpaired([], subs, objectId);
    forall s | s in Unpaired([], subs) ensures s in subs && IsLastOf(subs, s) {
      UnpairedIsLast([], subs, s);
    }
  }

  // ----- the whole migration, for one user

  function Reactions(orphans: seq<Subscription>): seq<Subscription>
  {
    seq(|orphans|, i requires 0 <= i < |orphans| => Subscription(NewReaction, orphans[i].objectId, orphans[i].isActive))
  }

  function Migrated(subs: seq<Subscription>): seq<Subscription>
  {
    subs + Reactions(Unpaired([], subs))
  }

  lemma ReactionsUpTo(orphans: seq<Subscription>)
    ensures Reactions(orphans[..0]) == []
    ensures forall i :: 0 <= i < |orphans| ==>
      Reactions(orphans[..i + 1]) == Reactions(orphans[..i]) + [Subscription(NewReaction, orphans[i].objectId, orphans[i].isActive)]
  {
  }

  method CreateMissingReactionSubscriptions(subs: seq<Subscription>) returns (after: seq<Subscription>)
    ensures after == Migrated(subs)
  {
    hide Reactions, Unpaired;
    after := subs;
    var orphaned := FindOrphans(subs);
    ReactionsUpTo(orphaned);
    for i := 0 to |orphaned|
      invariant after == subs + Reactions(orphaned[..i])
    {
      after := after + [Subscription(NewReaction, orphaned[i].objectId, orphaned[i].isActive)];
    }
    assert orphaned[..|orphaned|] == orphaned;
  }

  lemma {:induction false} CountOfConcat(a: seq<Subscription>, b: seq<Subscription>, objectId: string, category: Category)
    ensures CountOf(a + b, objectId, category) == CountOf(a, objectId, category) + CountOf(b, objectId, category)
    decreases |a|
  {
    if a == [] {
      assert a + b == b;
    } else {
      assert (a + b)[1..] == a[1..] + b;
      CountOfConcat(a[1..], b, objectId, category);
    }
  }

  lemma {:induction false} CountBothCategories(subs: seq<Subscription>, objectId: string)
    ensures Count(subs, objectId) == CountOf(subs, objectId, NewComment) + CountOf(subs, objectId, NewReaction)
    decreases |subs|
  {
    if subs != [] {
      CountBothCategories(subs[1..], objectId);
    }
  }

  lemma {:induction false} CountReactions(orphans: seq<Subscription>, objectId: string)
    ensures CountOf(Reactions(orphans), objectId, NewReaction) == Count(orphans, objectId)
    ensures CountOf(Reactions(orphans), objectId, NewComment) == 0
    decreases |orphans|
  {
    if orphans != [] {
      assert Reactions(orphans)[1..] == Reactions(orphans[1..]);
      CountReactions(orphans[1..], objectId);
    }
  }

  /** The counts after the migration: one more reaction for an odd object, nothing else. */
  lemma MigratedCounts(subs: seq<Subscription>, objectId: string)
    ensures CountOf(Migrated(subs), objectId, NewComment) == CountOf(subs, objectId, NewComment)
    ensures CountOf(Migrated(subs), objectId, NewReaction) ==
            CountOf(subs, objectId, NewReaction) + Count(subs, objectId) % 2
  {
    hide Unpaired, CountOf, Count;
    var orphans := Unpaired([], subs);
    CountOfConcat(subs, Reactions(orphans), objectId, NewComment);
    CountOfConcat(subs, Reactions(orphans), objectId, NewReaction);
    CountReactions(orphans, objectId);
    OrphansAreOddOnes(subs, objectId);
  }

  /**
   An object ends with both categories exactly when it has a comment subscription and
   either a reaction subscription or an odd number of subscriptions altogether.
   */
  lemma BothCategoriesIff(subs: seq<Subscription>, objectId: string)
    ensures CountOf(Migrated(subs), objectId, NewComment) > 0 && CountOf(Migrated(subs), objectId, NewReaction) > 0 <==>
            CountOf(subs, objectId, NewComment) > 0
            && (CountOf(subs, objectId, NewReaction) > 0 || Count(subs, objectId) % 2 == 1)
  {
    hide CountOf, Count, Migrated;
    MigratedCounts(subs, objectId);
  }

  /**
   With at most one subscription of each category per object, and no reaction subscription
   without a comment subscription, every object ends with exactly one of each.
   */
  lemma ExactlyOneOfEach(subs: seq<Subscription>, objectId: string)
    requires Mentions(subs, objectId)
    requires CountOf(subs, objectId, NewComment) <= 1 && CountOf(subs, objectId, NewReaction) <= 1
    requires CountOf(subs, objectId, NewReaction) > 0 ==> CountOf(subs, objectId, NewComment) > 0
    ensures CountOf(Migrated(subs), objectId, NewComment) == CountOf(Migrated(subs), objectId, NewReaction) == 1
  {
    hide CountOf, Count, Migrated;
    MigratedCounts(subs, objectId);
    CountBothCategories(subs, objectId);
    CountMentions(subs, objectId);
  }

  /**
   The rows that are there stay; every inserted row is a reaction subscription for an object
   with an odd number of subscriptions, as active as the last of them.
   */
  lemma InsertedRows(subs: seq<Subscription>, i: nat) returns (s: Subscription)
    requires |subs| <= i < |Migrated(subs)|
    ensures Migrated(subs)[..|subs|] == subs
    ensures s in subs && IsLastOf(subs, s) && Count(subs, s.objectId) % 2 == 1
    ensures Migrated(subs)[i] == Subscription(NewReaction, s.objectId, s.isActive)
  {
    hide Unpaired, Count;
    s := Unpaired([], subs)[i - |subs|];
    OrphansAreOddOnes(subs, s.objectId);
    CountMentions(Unpaired([], subs), s.objectId);
  }
}
