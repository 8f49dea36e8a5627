/**
 Invite links: creating them, accepting them, and redeeming or otherwise adding the codes
 they mint. Use limits are whole numbers.
 */
module InviteLinks {
  import opened Wrappers
  import opened Places

  datatype LinkId = LinkId(hex: string)

  datatype TimeLimit = NoTimeLimit | Hours24 | Hours48 | OneWeek | OneMonth | Days30

  datatype Scope = OfCommunity(community: CommunityId) | OfChain(chain: ChainId)

  datatype Link = Link(scope: Scope, creatorId: nat, active: bool, multiUse: Option<int>, timeLimit: TimeLimit,
                       used: int, createdAt: int)

  datatype Code = Code(community: Option<CommunityId>, creatorId: nat, email: string, used: bool)

  datatype Desk = Desk(links: map<LinkId, Link>, codes: seq<Code>)

  datatype User = User(id: nat, email: Option<string>)

  /** The requested number of uses: the word for no limit, a number, or something else. */
  datatype Uses = NoLimit | Times(n: int) | NotANumber

  const HOUR: int := 3_600_000

  /** Whole hours between two instants, cut towards zero. */
  function HoursSince(createdAt: int, now: int): int
  {
    if now >= createdAt then (now - createdAt) / HOUR else -((createdAt - now) / HOUR)
  }

  /** The community of a link; a link of a chain has none. */
  function CommunityOf(l: Link): Option<CommunityId>
  {
    if l.scope.OfCommunity? then Some(l.scope.community) else None
  }

  /**
   Whether a link is still in time. A limit of 30 days can be requested and stored, but it
   is none of the cases the code knows, and counts as out of time from the start.
   */
  predicate IsInTime(l: Link, now: int)
  {
    match l.timeLimit
    case NoTimeLimit => true
    case Hours24 => HoursSince(l.createdAt, now) <= 24
    case Hours48 => HoursSince(l.createdAt, now) <= 24 * 2
    case OneWeek => HoursSince(l.createdAt, now) <= 24 * 7
    case OneMonth => HoursSince(l.createdAt, now) <= 24 * 30
    case Days30 => false
  }

  predicate IsUsedUp(l: Link)
  {
    l.multiUse == Some(l.used)
  }

  predicate HasOpenInvite(codes: seq<Code>, community: Option<CommunityId>, email: string)
  {
    exists i :: 0 <= i < |codes| && codes[i].community == community && codes[i].email == email && !codes[i].used
  }

  datatype Answer = Minted | AlreadyInvited | Refused

  /** The answer to an accept request, without its effect. */
  function AnswerTo(desk: Desk, user: Option<User>, id: LinkId, communities: set<CommunityId>, now: int): Answer
  {
    if user.None? || user.value.email.None? then Refused
    else if id !in desk.links || !desk.links[id].active then Refused
    else
      var l := desk.links[id];
      if IsUsedUp(l) || !IsInTime(l, now) then Refused
      else if HasOpenInvite(desk.codes, CommunityOf(l), user.value.email.value) then AlreadyInvited
      else if CommunityOf(l).None? || CommunityOf(l).value !in communities then Refused
      else Minted
  }

  /** The link after one use. */
  function UsedOnce(l: Link): Link
  {
    var used := l.used + 1;
    l.(used := used, active := l.active && l.multiUse != Some(used))
  }

  function Accepted(desk: Desk, user: Option<User>, id: LinkId, communities: set<CommunityId>, now: int): Desk
  {
    if user.None? || user.value.email.None? || id !in desk.links || !desk.links[id].active || IsUsedUp(desk.links[id]) then desk
    else
      var l := desk.links[id];
      if !IsInTime(l, now) then desk.(links := desk.links[id := l.(active := false)])
      else if AnswerTo(desk, user, id, communities, now) != Minted then desk
      else Desk(desk.links[id := UsedOnce(l)],
                desk.codes + [Code(CommunityOf(l), l.creatorId, user.value.email.value, false)])
  }

  /** The links without any limit that a user made for a place. */
  predicate IsForeverLink(l: Link, scope: Scope, creatorId: nat)
  {
    l.scope == scope && l.creatorId == creatorId && l.multiUse == None && l.timeLimit == NoTimeLimit
  }

  /**
   A new link, or the existing one if it is to have no limit at all. `found` is the link the
   lookup returns when there are several; a clash of the random id is an error.
   */
  function Requested(desk: Desk, scope: Scope, creatorId: nat, uses: Uses, timeLimit: TimeLimit,
                     freshId: LinkId, found: Option<LinkId>, now: int): Desk
  {
    if uses == NotANumber then desk
    else if uses == NoLimit && timeLimit == NoTimeLimit && found.Some? && found.value in desk.links
            && IsForeverLink(desk.links[found.value], scope, creatorId) then
      desk.(links := desk.links[found.value := desk.links[found.value].(active := true)])
    else if freshId in desk.links then desk
    else desk.(links := desk.links[freshId := Link(scope, creatorId, true, if uses == NoLimit then None else Some(uses.n),
                                                   timeLimit, 0, now)])
  }

  function Redeemed(desk: Desk, i: nat): Desk
  {
    if i < |desk.codes| then desk.(codes := desk.codes[i := desk.codes[i].(used := true)]) else desk
  }

  class InviteDesk {
    var links: map<LinkId, Link>
    var codes: seq<Code>

    function Model(): Desk
      reads this
    {
      Desk(links, codes)
    }

    constructor ()
      ensures Model() == Desk(map[], [])
    {
      links, codes := map[], [];
    }

    method FindOpenInvite(community: Option<CommunityId>, email: string) returns (found: bool)
      ensures found == HasOpenInvite(codes, community, email)
    {
      for i := 0 to |codes|
        invariant !HasOpenInvite(codes[..i], community, email)
      {
        if codes[i].community == community && codes[i].email == email && !codes[i].used {
          return true;
        }
      }
      assert codes[..|codes|] == codes;
      return false;
    }

    method AcceptInviteLink(user: Option<User>, id: LinkId, communities: set<CommunityId>, now: int) returns (answer: Answer)
      modifies this
      ensures Model() == Accepted(old(Model()), user, id, communities, now)
      ensures answer == AnswerTo(old(Model()), user, id, communities, now)
    {
      if user.None? || user.value.email.None? {
        return Refused;
      }
      if id !in links || !links[id].active {
        return Refused;
      }
      var inviteLink := links[id];
      if inviteLink.multiUse.Some? && inviteLink.used == inviteLink.multiUse.value {
        return Refused;
      }
      var timeElapsed := HoursSince(inviteLink.createdAt, now);
      var expired := match inviteLink.timeLimit
        case NoTimeLimit => false
        case Hours24 => timeElapsed > 24
        case Hours48 => timeElapsed > 24 * 2
        case OneWeek => timeElapsed > 24 * 7
        case OneMonth => timeElapsed > 24 * 30
        case Days30 => true;
      if expired {
        links := links[id := inviteLink.(active := false)];
        return Refused;
      }
      // an outstanding invite to the community is as good as a new one
      var prevInviteCode := FindOpenInvite(CommunityOf(inviteLink), user.value.email.value);
      if prevInviteCode {
        return AlreadyInvited;
      }
      if CommunityOf(inviteLink).None? || CommunityOf(inviteLink).value !in communities {
        return Refused;
      }
      codes := codes + [Code(CommunityOf(inviteLink), inviteLink.creatorId, user.value.email.value, false)];
      var multiUse := inviteLink.multiUse;
      inviteLink := inviteLink.(used := inviteLink.used + 1);
      if multiUse == Some(inviteLink.used) {
        inviteLink := inviteLink.(active := false);
      }
      links := links[id := inviteLink];
      return Minted;
    }

    /** Some link without any limit that the user made for the place, if there is one. */
    method FindForeverLink(scope: Scope, creatorId: nat) returns (found: Option<LinkId>)
      ensures found.Some? ==> found.value in links && IsForeverLink(links[found.value], scope, creatorId)
      ensures found.None? ==> forall id :: id in links ==> !IsForeverLink(links[id], scope, creatorId)
    {
      if id :| id in links && IsForeverLink(links[id], scope, creatorId) {
        return Some(id);
      } else {
        return None;
      }
    }

    method CreateInviteLink(scope: Scope, creatorId: nat, uses: Uses, timeLimit: TimeLimit, freshId: LinkId, now: int)
      returns (found: Option<LinkId>)
      modifies this
      ensures Model() == Requested(old(Model()), scope, creatorId, uses, timeLimit, freshId, found, now)
      ensures found.None? && uses == NoLimit && timeLimit == NoTimeLimit ==>
        forall id :: id in old(links) ==> !IsForeverLink(old(links)[id], scope, creatorId)
    {
      found := None;
      if uses == NotANumber {
        return;
      }
      if uses == NoLimit && timeLimit == NoTimeLimit {
        found := FindForeverLink(scope, creatorId);
        if found.Some? {
          if !links[found.value].active {
            links := links[found.value := links[found.value].(active := true)];
          }
          return;
        }
      }
      if freshId in links {
        return;
      }
      var multiUse := if uses == NoLimit then None else Some(uses.n);
      links := links[freshId := Link(scope, creatorId, true, multiUse, timeLimit, 0, now)];
    }
  }

  // ----- when a link mints

  /** When a link is in time: up to a millisecond before 25, 49, 169 or 721 hours have passed. */
  predicate IsWithinLimit(l: Link, now: int)
  {
    match l.timeLimit
    case NoTimeLimit => true
    case Hours24 => now < l.createdAt + 90_000_000
    case Hours48 => now < l.createdAt + 176_400_000
    case OneWeek => now < l.createdAt + 608_400_000
    case OneMonth => now < l.createdAt + 2_595_600_000
    case Days30 => false
  }

  lemma InTimeIff(l: Link, now: int)
    ensures IsInTime(l, now) <==> IsWithinLimit(l, now)
  {
  }

  /**
   A link mints a code exactly for a user with an email, while it is active and not used
   up, within its limit, made for an existing community, and the user has no open invite there.
   */
  lemma MintsIff(desk: Desk, user: Option<User>, id: LinkId, communities: set<CommunityId>, now: int)
    ensures AnswerTo(desk, user, id, communities, now) == Minted <==>
      && user.Some? && user.value.email.Some? && id in desk.links
      && desk.links[id].active && desk.links[id].multiUse != Some(desk.links[id].used)
      && IsWithinLimit(desk.links[id], now)
      && desk.links[id].scope.OfCommunity? && desk.links[id].scope.community in communities
      && !HasOpenInvite(desk.codes, Some(desk.links[id].scope.community), user.value.email.value)
  {
  }

  /**
   When a newly made link mints for its first user: it was asked for with a number of uses
   other than zero, it is a community's, and its hours have not passed. Whoever accepts it
   first has an open invite afterwards and is not minted another code.
   */
  lemma NewLinkMints(desk: Desk, community: CommunityId, creatorId: nat, uses: Uses, timeLimit: TimeLimit, id: LinkId,
                     user: User, communities: set<CommunityId>, created: int, now: int)
    requires id !in desk.links && (uses.Times? ==> uses.n >= 0)
    requires user.email.Some? && community in communities && !HasOpenInvite(desk.codes, Some(community), user.email.value)
    ensures var made := Requested(desk, OfCommunity(community), creatorId, uses, timeLimit, id, None, created);
      var l := Link(OfCommunity(community), creatorId, true, None, timeLimit, 0, created);
      && (AnswerTo(made, Some(user), id, communities, now) == Minted <==>
            uses != NotANumber && uses != Times(0) && IsWithinLimit(l, now))
      && (AnswerTo(made, Some(user), id, communities, now) == Minted ==>
            forall later :: AnswerTo(Accepted(made, Some(user), id, communities, now), Some(user), id, communities, later) != Minted)
  {
    var made := Requested(desk, OfCommunity(community), creatorId, uses, timeLimit, id, None, created);
    var after := Accepted(made, Some(user), id, communities, now);
    MintsIff(made, Some(user), id, communities, now);
    if AnswerTo(made, Some(user), id, communities, now) == Minted {
      var code := after.codes[|desk.codes|];
      assert HasOpenInvite(after.codes, Some(community), user.email.value);
      forall later ensures AnswerTo(after, Some(user), id, communities, later) != Minted {
        MintsIff(after, Some(user), id, communities, later);
      }
    }
  }

  /** A link for 24 hours still mints when it is accepted half an hour late. */
  lemma LateByHalfAnHour(community: CommunityId, id: LinkId, user: User, created: int)
    requires user.email.Some?
    ensures var made := Requested(Desk(map[], []), OfCommunity(community), 1, Times(1), Hours24, id, None, created);
      AnswerTo(made, Some(user), id, {community}, created + 24 * HOUR + HOUR / 2) == Minted
  {
    NewLinkMints(Desk(map[], []), community, 1, Times(1), Hours24, id, user, {community}, created, created + 24 * HOUR + HOUR / 2);
  }

  /** Whether an accept request gets as far as looking at the clock. */
  predicate IsPresented(desk: Desk, user: Option<User>, id: LinkId)
  {
    && user.Some? && user.value.email.Some? && id in desk.links && desk.links[id].active
    && desk.links[id].multiUse != Some(desk.links[id].used)
  }

  /**
   What an accept request changes: a late link is deactivated; a minted code is the user's,
   unused, and counts as a use, the last of which deactivates the link; otherwise nothing.
   A user who has an open invite is told so and nothing else.
   */
  lemma AcceptChanges(desk: Desk, user: Option<User>, id: LinkId, communities: set<CommunityId>, now: int)
    ensures var after, answer := Accepted(desk, user, id, communities, now), AnswerTo(desk, user, id, communities, now);
      if !IsPresented(desk, user, id) then after == desk && answer == Refused else
      var l := desk.links[id];
      if !IsWithinLimit(l, now) then
        answer == Refused && after.codes == desk.codes && after.links == desk.links[id := l.(active := false)]
      else if answer == Minted then
        && after.codes == desk.codes + [Code(Some(l.scope.community), l.creatorId, user.value.email.value, false)]
        && after.links.Keys == desk.links.Keys
        && (forall x :: x in desk.links && x != id ==> after.links[x] == desk.links[x])
        && after.links[id].used == l.used + 1 && (after.links[id].active <==> l.multiUse != Some(l.used + 1))
      else
        && after == desk
        && (answer == AlreadyInvited <==>
              exists c :: c in desk.codes && !c.used && c.email == user.value.email.value
                          && c.community == if l.scope.OfCommunity? then Some(l.scope.community) else None)
  {
    hide IsWithinLimit, IsInTime;
    if id in desk.links {
      InTimeIff(desk.links[id], now);
    }
  }

  /** Once the code is redeemed, the user can be minted another one, as long as the link lasts. */
  lemma RedeemedUserMayReturn(desk: Desk, user: User, id: LinkId, communities: set<CommunityId>, now: int, later: int)
    requires AnswerTo(desk, Some(user), id, communities, now) == Minted
    ensures var after := Redeemed(Accepted(desk, Some(user), id, communities, now), |desk.codes|);
      && (forall i :: 0 <= i < |desk.codes| ==> after.codes[i] == desk.codes[i])
      && (AnswerTo(after, Some(user), id, communities, later) == Minted <==>
            desk.links[id].multiUse != Some(desk.links[id].used + 1) && IsWithinLimit(desk.links[id], later))
  {
    hide IsWithinLimit, IsInTime, HasOpenInvite;
    var accepted := Accepted(desk, Some(user), id, communities, now);
    var after := Redeemed(accepted, |desk.codes|);
    AcceptChanges(desk, Some(user), id, communities, now);
    MintsIff(desk, Some(user), id, communities, now);
    MintsIff(after, Some(user), id, communities, later);
    SameOpenInvites(desk.codes, after.codes, Some(desk.links[id].scope.community), user.email.value);
    SameLimit(desk.links[id], after.links[id], later);
  }

  lemma SameOpenInvites(codes: seq<Code>, codes': seq<Code>, community: Option<CommunityId>, email: string)
    requires |codes'| == |codes| + 1 && codes'[..|codes|] == codes && codes'[|codes|].used
    ensures HasOpenInvite(codes', community, email) <==> HasOpenInvite(codes, community, email)
  {
    assert forall i :: 0 <= i < |codes| ==> codes'[i] == codes[i];
  }

  lemma SameLimit(l: Link, l': Link, now: int)
    requires l.timeLimit == l'.timeLimit && l.createdAt == l'.createdAt
    ensures IsWithinLimit(l, now) <==> IsWithinLimit(l', now)
  {
  }

  /**
   What a create request leaves: nothing new for a number that is none; the link that is
   found, made active, for a second link without any limit; else an unused, active link
   under the fresh id with exactly the limits asked for. Codes and other links stay.
   */
  lemma RequestMakesLink(desk: Desk, scope: Scope, creatorId: nat, uses: Uses, timeLimit: TimeLimit,
                         freshId: LinkId, found: Option<LinkId>, now: int)
    requires freshId !in desk.links
    ensures var after := Requested(desk, scope, creatorId, uses, timeLimit, freshId, found, now);
      && after.codes == desk.codes
      && if uses == NotANumber then after == desk
        else if uses == NoLimit && timeLimit == NoTimeLimit && found.Some? && found.value in desk.links
                && desk.links[found.value].scope == scope && desk.links[found.value].creatorId == creatorId
                && desk.links[found.value].multiUse == None && desk.links[found.value].timeLimit == NoTimeLimit then
          && after.links.Keys == desk.links.Keys && after.links[found.value].active
          && SameTerms(desk.links[found.value], after.links[found.value])
          && after.links[found.value].used == desk.links[found.value].used
          && forall x :: x in desk.links && x != found.value ==> after.links[x] == desk.links[x]
        else
          && after.links.Keys == desk.links.Keys + {freshId} && (forall x :: x in desk.links ==> after.links[x] == desk.links[x])
          && var l := after.links[freshId];
            && l.scope == scope && l.creatorId == creatorId && l.active && l.used == 0 && l.createdAt == now
            && l.timeLimit == timeLimit && (uses == NoLimit ==> l.multiUse == None) && (uses.Times? ==> l.multiUse == Some(uses.n))
  {
  }

  // ----- runs

  datatype Request =
    | Accept(user: Option<User>, id: LinkId, communities: set<CommunityId>)
    | Create(scope: Scope, creatorId: nat, uses: Uses, timeLimit: TimeLimit, freshId: LinkId, found: Option<LinkId>)
    | Redeem(i: nat)
    | InviteByEmail(code: Code)

  datatype Event = Event(request: Request, now: int)

  function Step(desk: Desk, e: Event): Desk
  {
    match e.request
    case Accept(user, id, communities) => Accepted(desk, user, id, communities, e.now)
    case Create(scope, creatorId, uses, timeLimit, freshId, found) =>
      Requested(desk, scope, creatorId, uses, timeLimit, freshId, found, e.now)
    case Redeem(i) => Redeemed(desk, i)
    case InviteByEmail(code) => desk.(codes := desk.codes + [code])
  }

  /** A user who was invited by email is not minted a code by a link of the same community. */
  lemma InvitedUserIsNotMinted(desk: Desk, code: Code, user: User, id: LinkId, communities: set<CommunityId>, now: int, later: int)
    requires !code.used && user.email == Some(code.email)
    requires id in desk.links && code.community == CommunityOf(desk.links[id])
    ensures var after := Step(desk, Event(InviteByEmail(code), now));
      after.links == desk.links && AnswerTo(after, Some(user), id, communities, later) != Minted
  {
    var after := Step(desk, Event(InviteByEmail(code), now));
    assert after.codes[|desk.codes|] == code;
  }

  predicate MintsFrom(desk: Desk, e: Event, id: LinkId)
  {
    e.request.Accept? && e.request.id == id && AnswerTo(desk, e.request.user, id, e.request.communities, e.now) == Minted
  }

  function Run(desk: Desk, events: seq<Event>): Desk
  {
    if events == [] then desk else Step(Run(desk, events[..|events| - 1]), events[|events| - 1])
  }

  /** How many codes a link minted during a run. */
  function Mints(desk: Desk, events: seq<Event>, id: LinkId): nat
  {
    if events == [] then 0 else
    var init := events[..|events| - 1];
    Mints(desk, init, id) + if MintsFrom(Run(desk, init), events[|events| - 1], id) then 1 else 0
  }

  function UsedOf(desk: Desk, id: LinkId): int
  {
    if id in desk.links then desk.links[id].used else 0
  }

  /** What never changes about a link. */
  ghost predicate SameTerms(l: Link, l': Link)
  {
    l' == l.(active := l'.active, used := l'.used)
  }

  lemma StepCountsMints(desk: Desk, e: Event, id: LinkId)
    ensures UsedOf(Step(desk, e), id) == UsedOf(desk, id) + if MintsFrom(desk, e, id) then 1 else 0
    ensures id in desk.links ==> id in Step(desk, e).links && SameTerms(desk.links[id], Step(desk, e).links[id])
  {
  }

  /** In every run, a link's use count grows by exactly the number of codes it mints. */
  lemma {:induction false} RunCountsMints(desk: Desk, events: seq<Event>, id: LinkId)
    ensures UsedOf(Run(desk, events), id) == UsedOf(desk, id) + Mints(desk, events, id)
    ensures id in desk.links ==> id in Run(desk, events).links && SameTerms(desk.links[id], Run(desk, events).links[id])
  {
    if events != [] {
      hide Step, MintsFrom, UsedOf;
      var init := events[..|events| - 1];
      RunCountsMints(desk, init, id);
      StepCountsMints(Run(desk, init), events[|events| - 1], id);
    }
  }

  // ----- limits

  /**
   A limited link is used at most as often as its limit allows, and inactive once a positive
   limit is reached; a link without any limit is active. Nothing is said of negative limits.
   */
  ghost predicate IsSound(l: Link)
  {
    && l.used >= 0
    && (l.multiUse.Some? && l.multiUse.value >= 0 ==> l.used <= l.multiUse.value)
    && (l.multiUse.Some? && l.multiUse.value > 0 && l.used == l.multiUse.value ==> !l.active)
    && (l.multiUse.None? && l.timeLimit == NoTimeLimit ==> l.active)
  }

  ghost predicate AllSound(desk: Desk)
  {
    forall id :: id in desk.links ==> IsSound(desk.links[id])
  }

  lemma StepKeepsSound(desk: Desk, e: Event)
    requires AllSound(desk)
    ensures AllSound(Step(desk, e))
  {
  }

  lemma {:induction false} RunKeepsSound(desk: Desk, events: seq<Event>)
    requires AllSound(desk)
    ensures AllSound(Run(desk, events))
  {
    if events != [] {
      hide Step, AllSound;
      RunKeepsSound(desk, events[..|events| - 1]);
      StepKeepsSound(Run(desk, events[..|events| - 1]), events[|events| - 1]);
    }
  }

  /**
   A link with a use limit n >= 0 that is created during a run mints exactly as many codes
   as its use count says, never more than n, and is inactive once it has minted n > 0.
   */
  lemma LimitedLinkMintsAtMost(desk: Desk, events: seq<Event>, id: LinkId, n: nat)
    requires AllSound(desk) && id !in desk.links
    requires id in Run(desk, events).links && Run(desk, events).links[id].multiUse == Some(n)
    ensures Mints(desk, events, id) == Run(desk, events).links[id].used <= n
    ensures n > 0 && Mints(desk, events, id) == n ==> !Run(desk, events).links[id].active
  {
    hide Run, Mints;
    RunCountsMints(desk, events, id);
    RunKeepsSound(desk, events);
  }

  // ----- once inactive, always inactive

  lemma StepKeepsInactive(desk: Desk, e: Event, id: LinkId)
    requires AllSound(desk) && id in desk.links && !desk.links[id].active
    ensures id in Step(desk, e).links && Step(desk, e).links[id] == desk.links[id]
    ensures !MintsFrom(desk, e, id)
  {
  }

  /** A link that has become inactive never becomes active again and never mints again. */
  lemma {:induction false} InactiveIsForEver(desk: Desk, events: seq<Event>, id: LinkId)
    requires AllSound(desk) && id in desk.links && !desk.links[id].active
    ensures id in Run(desk, events).links && Run(desk, events).links[id] == desk.links[id]
    ensures Mints(desk, events, id) == 0
  {
    if events != [] {
      hide Step, MintsFrom, AllSound;
      var init := events[..|events| - 1];
      InactiveIsForEver(desk, init, id);
      RunKeepsSound(desk, init);
      StepKeepsInactive(Run(desk, init), events[|events| - 1], id);
    }
  }

  /**
   The reactivation of an existing link is never needed: in every table a run can reach,
   asking for a link leaves all existing links as they are.
   */
  lemma ReactivationChangesNothing(desk: Desk, scope: Scope, creatorId: nat, uses: Uses, timeLimit: TimeLimit,
                                   freshId: LinkId, found: Option<LinkId>, now: int, id: LinkId)
    requires AllSound(desk) && id in desk.links
    ensures var after := Requested(desk, scope, creatorId, uses, timeLimit, freshId, found, now);
      id in after.links && after.links[id] == desk.links[id]
  {
  }

  /** A link with the 30-day limit, or one made for a chain, never mints in any run. */
  lemma {:induction false} SomeLinksNeverMint(desk: Desk, events: seq<Event>, id: LinkId)
    requires id in desk.links && (desk.links[id].timeLimit == Days30 || desk.links[id].scope.OfChain?)
    ensures Mints(desk, events, id) == 0
  {
    if events != [] {
      hide Step, HasOpenInvite, HoursSince;
      var init := events[..|events| - 1];
      SomeLinksNeverMint(desk, init, id);
      RunCountsMints(desk, init, id);
    }
  }
}
