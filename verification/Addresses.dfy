/**
 The ownership of addresses. Creating, refreshing a token, verifying, deleting, linking to
 another chain and merging on email login all change the same rows; every request is one
 atomic step.
 */
module Addresses {
  import opened Wrappers
  import opened Places

  type UserId = n: nat | n > 0 witness 1

  datatype Address = Address(text: string)

  datatype Base = Substrate | Cosmos | Ethereum | Near

  datatype Row = Row(address: Address, chain: ChainId, userId: Option<UserId>, verified: Option<int>,
                     token: string, expires: Option<int>, keytype: Option<string>, isMagic: bool)

  /** The rows in the order of their ids, and the number of users created so far. */
  datatype Table = Table(rows: seq<Row>, users: nat)

  /** The known chains, and the re-encoding of Substrate addresses, which may fail. */
  datatype Config = Config(chains: map<ChainId, Base>, encode: (Address, ChainId) -> Option<Address>)

  /** A login session: the user, and what is known about their email address. */
  datatype Session = Session(id: UserId, hasEmail: bool, emailVerified: bool)

  /** Ten minutes, in milliseconds. */
  const ADDRESS_TOKEN_EXPIRES_IN: int := 10 * 60 * 1000

  // ----- lookups

  /** A `WHERE` clause: chain and address, and perhaps that the row is verified and owned by a user. */
  datatype Where = Where(chain: ChainId, address: Address, verifiedOwner: Option<UserId>) {
    predicate Matches(r: Row) {
      && r.chain == chain && r.address == address
      && (verifiedOwner.Some? ==> r.userId == verifiedOwner && r.verified.Some?)
    }
  }

  /** The first matching row. */
  function FindOne(rows: seq<Row>, w: Where): (r: Option<nat>)
    ensures r.Some? ==> r.value < |rows| && w.Matches(rows[r.value])
    ensures r.None? ==> forall i :: 0 <= i < |rows| ==> !w.Matches(rows[i])
  {
    if rows == [] then None else
    var earlier := FindOne(rows[..|rows| - 1], w);
    if earlier.Some? then earlier
    else if w.Matches(rows[|rows| - 1]) then Some(|rows| - 1)
    else None
  }

  function At(chain: ChainId, address: Address): Where
  {
    Where(chain, address, None)
  }

  // ----- the row updates of the address model

  function EmptyRow(chain: ChainId, address: Address, now: int): Row
  {
    Row(address, chain, None, None, "NO_USER", Some(now), None, false)
  }

  function RowWithToken(user: Option<UserId>, chain: ChainId, address: Address, keytype: Option<string>,
                        token: string, now: int): Row
  {
    Row(address, chain, user, None, token, Some(now + ADDRESS_TOKEN_EXPIRES_IN), keytype, false)
  }

  function UpdateWithToken(r: Row, user: Option<UserId>, keytype: Option<string>, token: string, now: int): Row
  {
    r.(userId := if user.Some? then user else r.userId,
       keytype := keytype, token := token, expires := Some(now + ADDRESS_TOKEN_EXPIRES_IN))
  }

  function UpdateWithTokenProvided(r: Row, user: UserId, keytype: Option<string>, token: string, expires: Option<int>): Row
  {
    r.(userId := Some(user), keytype := keytype, token := token, expires := expires)
  }

  predicate HasExpired(r: Row, now: int)
  {
    r.expires.Some? && r.expires.value <= now
  }

  // ----- the requests, as functions on the table

  function CreateEmpty(t: Table, chain: ChainId, address: Address, now: int): Table
  {
    if FindOne(t.rows, At(chain, address)).Some? then t
    else t.(rows := t.rows + [EmptyRow(chain, address, now)])
  }

  /** Who takes an existing row on a create request; `None` leaves the owner alone. */
  function Claimant(r: Row, user: Option<UserId>, now: int): Option<UserId>
  {
    if user.Some? && ((r.verified.None? && HasExpired(r, now)) || r.userId.None? || r.userId == user) then user else None
  }

  function CreateAddress(t: Table, cfg: Config, user: Option<UserId>, chain: ChainId, address: Address,
                         keytype: Option<string>, token: string, now: int): Table
  {
    if chain !in cfg.chains then t else
    var found := FindOne(t.rows, At(chain, address));
    if found.Some? then
      var r := t.rows[found.value];
      t.(rows := t.rows[found.value := UpdateWithToken(r, Claimant(r, user, now), keytype, token, now)])
    else
      t.(rows := t.rows + [RowWithToken(user, chain, address, keytype, token, now)])
  }

  /** The state change after a signature was checked. */
  function VerifySignature(t: Table, i: nat, user: Option<UserId>, isValid: bool, now: int): Table
    requires i < |t.rows|
  {
    if !isValid then t else
    var r := t.rows[i].(expires := None, verified := Some(now));
    if user.Some? then t.(rows := t.rows[i := r.(userId := user)])
    else if r.userId.Some? then t.(rows := t.rows[i := r])
    else Table(t.rows[i := r.(userId := Some(t.users + 1))], t.users + 1)
  }

  function VerifyAddress(t: Table, cfg: Config, user: Option<UserId>, chain: ChainId, address: Address,
                         isValid: bool, now: int): Table
  {
    if chain !in cfg.chains then t else
    var found := FindOne(t.rows, At(chain, address));
    if found.None? || HasExpired(t.rows[found.value], now) then t
    else VerifySignature(t, found.value, user, isValid, now)
  }

  function DeleteAddress(t: Table, user: Option<UserId>, chain: ChainId, address: Address): Table
  {
    if user.None? then t else
    var found := FindOne(t.rows, At(chain, address));
    if found.None? || t.rows[found.value].userId != user || t.rows[found.value].isMagic then t
    else t.(rows := t.rows[found.value := t.rows[found.value].(userId := None, verified := None)])
  }

  predicate SharesToken(r: Row, cfg: Config, user: UserId, address: Address, base: Base)
  {
    r.userId == Some(user) && r.address == address && r.chain in cfg.chains && cfg.chains[r.chain] == base
  }

  /** The bulk update that gives all rows of the address on chains of one base the same new token. */
  function RefreshTokens(rows: seq<Row>, cfg: Config, user: UserId, address: Address, base: Base,
                         token: string, expires: int): (after: seq<Row>)
    ensures |after| == |rows|
  {
    if rows == [] then [] else
    var r := rows[|rows| - 1];
    RefreshTokens(rows[..|rows| - 1], cfg, user, address, base, token, expires) +
    [if SharesToken(r, cfg, user, address, base) then r.(token := token, expires := Some(expires)) else r]
  }

  function EncodedFor(cfg: Config, chain: ChainId, address: Address): Option<Address>
    requires chain in cfg.chains
  {
    if cfg.chains[chain] == Substrate then cfg.encode(address, chain) else Some(address)
  }

  /**
   The token is replaced unless the original's has expired: the comparison that decides
   whether the original token is still valid holds exactly for an expired one.
   */
  function LinkToken(original: Row, token: string, now: int): (string, Option<int>)
  {
    if HasExpired(original, now) then (original.token, original.expires)
    else (token, Some(now + ADDRESS_TOKEN_EXPIRES_IN))
  }

  /** Claims or creates the row of the encoded address on the other chain. */
  function LinkRow(rows: seq<Row>, original: Row, user: UserId, chain: ChainId, encoded: Address,
                   keytype: Option<string>, token: (string, Option<int>)): seq<Row>
  {
    var found := FindOne(rows, At(chain, encoded));
    if found.Some? then
      rows[found.value := UpdateWithTokenProvided(rows[found.value], user, keytype, token.0, token.1)]
    else
      rows + [Row(encoded, chain, original.userId, original.verified, token.0, token.1, original.keytype, false)]
  }

  /** The rows after the bulk update of a link request, which only an expired token prevents. */
  function RefreshedForLink(rows: seq<Row>, cfg: Config, original: Row, user: UserId, address: Address, chain: ChainId,
                            token: string, now: int): seq<Row>
    requires chain in cfg.chains
  {
    if HasExpired(original, now) then rows
    else RefreshTokens(rows, cfg, user, address, cfg.chains[chain], token, now + ADDRESS_TOKEN_EXPIRES_IN)
  }

  function LinkExistingAddressToChain(t: Table, cfg: Config, user: Option<UserId>, address: Address, chain: ChainId,
                                      originChain: ChainId, keytype: Option<string>, token: string, now: int): Table
  {
    if user.None? || chain !in cfg.chains then t else
    var origin := FindOne(t.rows, Where(originChain, address, user));
    if origin.None? then t else
    var original := t.rows[origin.value];
    var rows := RefreshedForLink(t.rows, cfg, original, user.value, address, chain, token, now);
    var encoded := EncodedFor(cfg, chain, address);
    if encoded.None? then t.(rows := rows)
    else t.(rows := LinkRow(rows, original, user.value, chain, encoded.value, keytype, LinkToken(original, token, now)))
  }

  /** The association setter: the user keeps the listed rows and lets go of the others. */
  function MergedRow(r: Row, previous: UserId, existing: UserId): Row
  {
    if r.verified.Some? && (r.userId == Some(previous) || r.userId == Some(existing)) then r.(userId := Some(existing))
    else if r.userId == Some(existing) then r.(userId := None)
    else r
  }

  function MergeAddresses(rows: seq<Row>, previous: UserId, existing: UserId): (after: seq<Row>)
    ensures |after| == |rows|
  {
    if rows == [] then []
    else MergeAddresses(rows[..|rows| - 1], previous, existing) + [MergedRow(rows[|rows| - 1], previous, existing)]
  }

  function FinishEmailLogin(t: Table, session: Option<Session>, tokenExpires: Option<int>,
                            existing: Option<UserId>, now: int): Table
  {
    if session.Some? && session.value.hasEmail && session.value.emailVerified then t
    else if tokenExpires.None? || now >= tokenExpires.value then t
    else if existing.Some? then
      if session.Some? && session.value.id != existing.value then
        t.(rows := MergeAddresses(t.rows, session.value.id, existing.value))
      else t
    else if session.Some? && !session.value.hasEmail then t
    else t.(users := t.users + 1)
  }

  // ----- runs

  datatype Request =
    | ProfileEvent(chain: ChainId, address: Address)
    | Create(user: Option<UserId>, chain: ChainId, address: Address, keytype: Option<string>, token: string)
    | Verify(user: Option<UserId>, chain: ChainId, address: Address, isValid: bool)
    | Delete(user: Option<UserId>, chain: ChainId, address: Address)
    | Link(user: Option<UserId>, address: Address, chain: ChainId, originChain: ChainId, keytype: Option<string>, token: string)
    | EmailLogin(session: Option<Session>, tokenExpires: Option<int>, existing: Option<UserId>)

  datatype Timed = Timed(request: Request, now: int)

  function Step(t: Table, cfg: Config, e: Timed): Table
  {
    match e.request
    case ProfileEvent(chain, address) => CreateEmpty(t, chain, address, e.now)
    case Create(user, chain, address, keytype, token) => CreateAddress(t, cfg, user, chain, address, keytype, token, e.now)
    case Verify(user, chain, address, isValid) => VerifyAddress(t, cfg, user, chain, address, isValid, e.now)
    case Delete(user, chain, address) => DeleteAddress(t, user, chain, address)
    case Link(user, address, chain, originChain, keytype, token) =>
      LinkExistingAddressToChain(t, cfg, user, address, chain, originChain, keytype, token, e.now)
    case EmailLogin(session, tokenExpires, existing) => FinishEmailLogin(t, session, tokenExpires, existing, e.now)
  }

  function Run(t: Table, cfg: Config, events: seq<Timed>): Table
  {
    if events == [] then t else Step(Run(t, cfg, events[..|events| - 1]), cfg, events[|events| - 1])
  }

  // ----- the invariant

  ghost predicate VerifiedIsOwned(rows: seq<Row>)
  {
    forall i :: 0 <= i < |rows| ==> rows[i].verified.Some? ==> rows[i].userId.Some?
  }

  ghost predicate IsUnique(rows: seq<Row>)
  {
    forall i, j :: 0 <= i < j < |rows| ==> rows[i].address != rows[j].address || rows[i].chain != rows[j].chain
  }

  ghost predicate IsGood(rows: seq<Row>)
  {
    VerifiedIsOwned(rows) && IsUnique(rows)
  }

  /** Rows stay where they are and keep their address and chain; new rows come at the end. */
  ghost predicate Persist(before: seq<Row>, after: seq<Row>)
  {
    && |before| <= |after|
    && (forall i :: 0 <= i < |before| ==> after[i].address == before[i].address && after[i].chain == before[i].chain)
  }

  lemma UpdateKeepsGood(rows: seq<Row>, i: nat, r: Row)
    requires IsGood(rows) && i < |rows|
    requires r.address == rows[i].address && r.chain == rows[i].chain
    requires r.verified.Some? ==> r.userId.Some?
    ensures IsGood(rows[i := r]) && Persist(rows, rows[i := r])
  {
  }

  lemma AppendKeepsGood(rows: seq<Row>, r: Row)
    requires IsGood(rows) && FindOne(rows, At(r.chain, r.address)).None?
    requires r.verified.Some? ==> r.userId.Some?
    ensures IsGood(rows + [r]) && Persist(rows, rows + [r])
  {
  }

  lemma {:induction false} RefreshTokensAt(rows: seq<Row>, cfg: Config, user: UserId, address: Address, base: Base,
                                           token: string, expires: int, i: nat)
    requires i < |rows|
    ensures RefreshTokens(rows, cfg, user, address, base, token, expires)[i] ==
            var r := rows[i];
            if r.userId == Some(user) && r.address == address && r.chain in cfg.chains && cfg.chains[r.chain] == base
            then r.(token := token, expires := Some(expires)) else r
  {
    if i < |rows| - 1 {
      hide SharesToken;
      RefreshTokensAt(rows[..|rows| - 1], cfg, user, address, base, token, expires, i);
    }
  }

  lemma {:induction false} MergeAddressesAt(rows: seq<Row>, previous: UserId, existing: UserId, i: nat)
    requires i < |rows|
    ensures MergeAddresses(rows, previous, existing)[i] == MergedRow(rows[i], previous, existing)
  {
    if i < |rows| - 1 {
      hide MergedRow;
      MergeAddressesAt(rows[..|rows| - 1], previous, existing, i);
    }
  }

  /** A refresh changes tokens only. */
  ghost predicate OnlyTokensChanged(before: seq<Row>, after: seq<Row>)
  {
    && |after| == |before|
    && (forall i :: 0 <= i < |before| ==> after[i] == before[i].(token := after[i].token, expires := after[i].expires))
  }

  lemma RefreshChangesTokensOnly(rows: seq<Row>, cfg: Config, user: UserId, address: Address, base: Base,
                                 token: string, expires: int)
    ensures OnlyTokensChanged(rows, RefreshTokens(rows, cfg, user, address, base, token, expires))
  {
  }

  lemma OnlyTokensKeepsGood(before: seq<Row>, after: seq<Row>)
    requires IsGood(before) && OnlyTokensChanged(before, after)
    ensures IsGood(after) && Persist(before, after)
  {
  }

  lemma RefreshKeepsGood(t: Table, cfg: Config, original: Row, user: UserId, address: Address, chain: ChainId,
                         token: string, now: int)
    requires chain in cfg.chains
    ensures OnlyTokensChanged(t.rows, RefreshedForLink(t.rows, cfg, original, user, address, chain, token, now))
    ensures IsGood(t.rows) ==> IsGood(RefreshedForLink(t.rows, cfg, original, user, address, chain, token, now))
  {
    hide RefreshTokens, IsGood;
    if !HasExpired(original, now) {
      RefreshChangesTokensOnly(t.rows, cfg, user, address, cfg.chains[chain], token, now + ADDRESS_TOKEN_EXPIRES_IN);
    }
    if IsGood(t.rows) {
      OnlyTokensKeepsGood(t.rows, RefreshedForLink(t.rows, cfg, original, user, address, chain, token, now));
    }
  }

  lemma LinkRowKeepsGood(rows: seq<Row>, original: Row, user: UserId, chain: ChainId, encoded: Address,
                         keytype: Option<string>, token: (string, Option<int>))
    requires IsGood(rows) && original.userId == Some(user)
    ensures IsGood(LinkRow(rows, original, user, chain, encoded, keytype, token))
    ensures Persist(rows, LinkRow(rows, original, user, chain, encoded, keytype, token))
  {
  }

  lemma LinkKeepsGood(t: Table, cfg: Config, user: Option<UserId>, address: Address, chain: ChainId,
                      originChain: ChainId, keytype: Option<string>, token: string, now: int)
    requires IsGood(t.rows)
    ensures IsGood(LinkExistingAddressToChain(t, cfg, user, address, chain, originChain, keytype, token, now).rows)
    ensures Persist(t.rows, LinkExistingAddressToChain(t, cfg, user, address, chain, originChain, keytype, token, now).rows)
  {
    hide IsGood, FindOne, EncodedFor, LinkRow, RefreshTokens, LinkToken;
    PersistReflexive(t.rows);
    if user.Some? && chain in cfg.chains {
      var origin := FindOne(t.rows, Where(originChain, address, user));
      if origin.Some? {
        var original := t.rows[origin.value];
        var rows := RefreshedForLink(t.rows, cfg, original, user.value, address, chain, token, now);
        RefreshKeepsGood(t, cfg, original, user.value, address, chain, token, now);
        var encoded := EncodedFor(cfg, chain, address);
        if encoded.Some? {
          LinkRowKeepsGood(rows, original, user.value, chain, encoded.value, keytype, LinkToken(original, token, now));
        }
      }
    }
  }

  lemma PersistReflexive(rows: seq<Row>)
    ensures Persist(rows, rows)
  {
  }

  lemma MergeKeepsGood(rows: seq<Row>, previous: UserId, existing: UserId)
    requires IsGood(rows)
    ensures IsGood(MergeAddresses(rows, previous, existing)) && Persist(rows, MergeAddresses(rows, previous, existing))
  {
    hide MergeAddresses;
    var after := MergeAddresses(rows, previous, existing);
    forall i | 0 <= i < |rows|
      ensures after[i].address == rows[i].address && after[i].chain == rows[i].chain
      ensures after[i].verified.Some? ==> after[i].userId.Some?
    {
      MergeAddressesAt(rows, previous, existing, i);
    }
  }

  /** Every request keeps verified rows owned and (address, chain) unique. */
  lemma StepKeepsGood(t: Table, cfg: Config, e: Timed)
    requires IsGood(t.rows)
    ensures IsGood(Step(t, cfg, e).rows) && Persist(t.rows, Step(t, cfg, e).rows)
  {
    hide IsGood, FindOne, LinkExistingAddressToChain, MergeAddresses, Persist;
    var now := e.now;
    PersistReflexive(t.rows);
    match e.request
    case ProfileEvent(chain, address) =>
      if FindOne(t.rows, At(chain, address)).None? {
        AppendKeepsGood(t.rows, EmptyRow(chain, address, now));
      }
    case Create(user, chain, address, keytype, token) =>
      var found := FindOne(t.rows, At(chain, address));
      if found.Some? {
        GoodRow(t.rows, found.value);
        UpdateKeepsGood(t.rows, found.value,
                        UpdateWithToken(t.rows[found.value], Claimant(t.rows[found.value], user, now), keytype, token, now));
      } else {
        AppendKeepsGood(t.rows, RowWithToken(user, chain, address, keytype, token, now));
      }
    case Verify(user, chain, address, isValid) =>
      var found := FindOne(t.rows, At(chain, address));
      if found.Some? {
        var r := t.rows[found.value].(expires := None, verified := Some(now));
        var owner := if user.Some? then user else if r.userId.Some? then r.userId else Some(t.users + 1);
        assert r.(userId := r.userId) == r;
        UpdateKeepsGood(t.rows, found.value, r.(userId := owner));
      }
    case Delete(user, chain, address) =>
      var found := FindOne(t.rows, At(chain, address));
      if found.Some? {
        UpdateKeepsGood(t.rows, found.value, t.rows[found.value].(userId := None, verified := None));
      }
    case Link(user, address, chain, originChain, keytype, token) =>
      LinkKeepsGood(t, cfg, user, address, chain, originChain, keytype, token, now);
    case EmailLogin(session, tokenExpires, existing) =>
      if session.Some? && existing.Some? {
        MergeKeepsGood(t.rows, session.value.id, existing.value);
      }
  }

  lemma GoodRow(rows: seq<Row>, i: nat)
    requires IsGood(rows) && i < |rows|
    ensures rows[i].verified.Some? ==> rows[i].userId.Some?
  {
  }

  /** In every run, from any good table, a verified address has an owner and (address, chain) is unique. */
  lemma {:induction false} RunKeepsGood(t: Table, cfg: Config, events: seq<Timed>)
    requires IsGood(t.rows)
    ensures IsGood(Run(t, cfg, events).rows) && Persist(t.rows, Run(t, cfg, events).rows)
  {
    hide IsGood, Step;
    if events != [] {
      RunKeepsGood(t, cfg, events[..|events| - 1]);
      StepKeepsGood(Run(t, cfg, events[..|events| - 1]), cfg, events[|events| - 1]);
    }
  }

  // ----- who may take over a verified address

  /** The row a lookup by chain and address finds is the only one. */
  lemma FindOneIsRow(rows: seq<Row>, i: nat, chain: ChainId, address: Address)
    requires IsUnique(rows) && i < |rows|
    ensures FindOne(rows, At(chain, address)) == Some(i) <==> rows[i].chain == chain && rows[i].address == address
  {
  }

  /** The conditions under which a request may change the owner of the verified row `i`. */
  ghost predicate MayChangeOwner(t: Table, cfg: Config, e: Timed, i: nat, after: Row)
    requires i < |t.rows|
  {
    var r := t.rows[i];
    match e.request
    case ProfileEvent(_, _) => false
    case Create(_, _, _, _, _) => false
    case Verify(user, chain, address, isValid) =>
      // a valid signature, over an unexpired token, by the new owner
      isValid && user.Some? && r.chain == chain && r.address == address && !HasExpired(r, e.now)
      && after.userId == user && after.verified == Some(e.now)
    case Delete(user, chain, address) =>
      // the owner gives it up, and it is no longer verified
      r.userId == user && r.chain == chain && r.address == address && !r.isMagic
      && after.userId == None && after.verified == None
    case Link(user, address, chain, originChain, _, _) =>
      // the new owner holds the same address, verified, on the original chain
      && user.Some? && chain in cfg.chains && r.chain == chain
      && EncodedFor(cfg, chain, address) == Some(r.address)
      && FindOne(t.rows, Where(originChain, address, user)).Some?
      && after.userId == user
    case EmailLogin(session, _, existing) =>
      // the owner logs in as an existing user
      && session.Some? && existing.Some? && r.userId == Some(session.value.id) && after.userId == existing
  }

  lemma LinkChangesOwner(t: Table, cfg: Config, e: Timed, i: nat)
    requires IsGood(t.rows) && i < |t.rows| && e.request.Link?
    requires Persist(t.rows, Step(t, cfg, e).rows)
    ensures Step(t, cfg, e).rows[i].userId != t.rows[i].userId ==> MayChangeOwner(t, cfg, e, i, Step(t, cfg, e).rows[i])
    ensures Step(t, cfg, e).rows[i].verified == t.rows[i].verified
  {
    hide IsGood, FindOne, EncodedFor, RefreshTokens, LinkToken;
    var Link(user, address, chain, originChain, keytype, token) := e.request;
    if user.Some? && chain in cfg.chains {
      var origin := FindOne(t.rows, Where(originChain, address, user));
      if origin.Some? {
        var original := t.rows[origin.value];
        var rows := RefreshedForLink(t.rows, cfg, original, user.value, address, chain, token, e.now);
        RefreshKeepsGood(t, cfg, original, user.value, address, chain, token, e.now);
        var encoded := EncodedFor(cfg, chain, address);
        if encoded.Some? {
          var found := FindOne(rows, At(chain, encoded.value));
          assert Step(t, cfg, e).rows == LinkRow(rows, original, user.value, chain, encoded.value, keytype, LinkToken(original, token, e.now));
        }
      }
    }
  }

  /**
   A verified address changes hands only by a valid signature of the new owner, by its
   owner giving it up, by the holder of the same verified address on another chain, or by
   its owner logging in as another user. A create request never moves it.
   */
  lemma VerifiedOwnerChanges(t: Table, cfg: Config, e: Timed, i: nat)
    requires IsGood(t.rows) && i < |t.rows| && t.rows[i].verified.Some?
    ensures i < |Step(t, cfg, e).rows|
    ensures Step(t, cfg, e).rows[i].userId != t.rows[i].userId ==> MayChangeOwner(t, cfg, e, i, Step(t, cfg, e).rows[i])
  {
    hide FindOne, LinkExistingAddressToChain, MergeAddresses, EncodedFor, IsUnique;
    StepKeepsGood(t, cfg, e);
    match e.request
    case ProfileEvent(chain, address) =>
    case Create(user, chain, address, keytype, token) =>
      FindOneIsRow(t.rows, i, chain, address);
    case Verify(user, chain, address, isValid) =>
      FindOneIsRow(t.rows, i, chain, address);
    case Delete(user, chain, address) =>
      FindOneIsRow(t.rows, i, chain, address);
    case Link(user, address, chain, originChain, keytype, token) =>
      LinkChangesOwner(t, cfg, e, i);
    case EmailLogin(session, tokenExpires, existing) =>
      if session.Some? && existing.Some? {
        MergeAddressesAt(t.rows, session.value.id, existing.value, i);
      }
  }

  /**
   On an existing row a create request makes the requester the owner exactly when the
   requester is logged in and the row is their own, has no owner, or is unverified with an
   expired token. Otherwise it leaves the owner alone.
   */
  lemma CreateClaims(t: Table, cfg: Config, user: Option<UserId>, chain: ChainId, address: Address,
                     keytype: Option<string>, token: string, now: int, i: nat)
    requires chain in cfg.chains && FindOne(t.rows, At(chain, address)) == Some(i)
    ensures var after := CreateAddress(t, cfg, user, chain, address, keytype, token, now).rows;
      var r := t.rows[i];
      && |after| == |t.rows|
      && (forall j :: 0 <= j < |t.rows| && j != i ==> after[j] == t.rows[j])
      && after[i].verified == r.verified && after[i].token == token && after[i].expires == Some(now + 600_000)
      && after[i].keytype == keytype && after[i].isMagic == r.isMagic
      && (after[i].userId == user && user.Some? <==>
            user.Some? && (r.userId == user || r.userId == None
                           || (r.verified == None && r.expires.Some? && r.expires.value <= now)))
      && ((after[i].userId == user && user.Some?) || after[i].userId == r.userId)
  {
  }

  // ----- verification needs a signature

  /** All re-encodings of an address belong to one key pair. */
  ghost predicate PreservesKey(cfg: Config, key: Address -> int)
  {
    forall a, c :: cfg.encode(a, c).Some? ==> key(cfg.encode(a, c).value) == key(a)
  }

  ghost predicate IsVerifiedKey(rows: seq<Row>, key: Address -> int, k: int)
  {
    exists i :: 0 <= i < |rows| && rows[i].verified.Some? && key(rows[i].address) == k
  }

  ghost predicate IsSignedKey(events: seq<Timed>, key: Address -> int, k: int)
  {
    exists i :: 0 <= i < |events| && Signs(events[i], key, k)
  }

  ghost predicate Signs(e: Timed, key: Address -> int, k: int)
  {
    e.request.Verify? && e.request.isValid && key(e.request.address) == k
  }

  lemma WitnessVerified(rows: seq<Row>, key: Address -> int, i: nat)
    requires i < |rows| && rows[i].verified.Some?
    ensures IsVerifiedKey(rows, key, key(rows[i].address))
  {
  }

  lemma LinkVerifiesNothingNew(t: Table, cfg: Config, e: Timed, key: Address -> int, i: nat)
    requires IsGood(t.rows) && PreservesKey(cfg, key) && e.request.Link? && i < |Step(t, cfg, e).rows|
    requires Step(t, cfg, e).rows[i].verified.Some?
    ensures IsVerifiedKey(t.rows, key, key(Step(t, cfg, e).rows[i].address))
  {
    hide IsGood, FindOne, RefreshTokens, LinkToken, IsVerifiedKey;
    StepKeepsGood(t, cfg, e);
    if i < |t.rows| {
      LinkChangesOwner(t, cfg, e, i);
      WitnessVerified(t.rows, key, i);
    } else {
      var Link(user, address, chain, originChain, keytype, token) := e.request;
      var origin := FindOne(t.rows, Where(originChain, address, user));
      assert origin.Some?;
      var original := t.rows[origin.value];
      RefreshKeepsGood(t, cfg, original, user.value, address, chain, token, e.now);
      assert Step(t, cfg, e).rows[i].address == EncodedFor(cfg, chain, address).value;
      WitnessVerified(t.rows, key, origin.value);
    }
  }

  /** A step verifies a key only if it was verified before or the step is a valid signature by it. */
  lemma StepVerifiesBySignature(t: Table, cfg: Config, e: Timed, key: Address -> int, i: nat)
    requires IsGood(t.rows) && PreservesKey(cfg, key) && i < |Step(t, cfg, e).rows|
    requires Step(t, cfg, e).rows[i].verified.Some?
    ensures var k := key(Step(t, cfg, e).rows[i].address);
      IsVerifiedKey(t.rows, key, k) || Signs(e, key, k)
  {
    hide IsGood, FindOne, LinkExistingAddressToChain, MergeAddresses, IsVerifiedKey, PreservesKey;
    if e.request.Link? {
      LinkVerifiesNothingNew(t, cfg, e, key, i);
    } else if i < |t.rows| {
      StepKeepsGood(t, cfg, e);
      if t.rows[i].verified.Some? {
        WitnessVerified(t.rows, key, i);
      }
      if e.request.EmailLogin? && e.request.session.Some? && e.request.existing.Some? {
        MergeAddressesAt(t.rows, e.request.session.value.id, e.request.existing.value, i);
      }
    }
  }

  /**
   In every run, an address is verified only if its key pair was verified to begin with or
   some request of the run carried a valid signature by that key pair.
   */
  lemma {:induction false} RunVerifiesBySignature(t: Table, cfg: Config, events: seq<Timed>, key: Address -> int, k: int)
    requires IsGood(t.rows) && PreservesKey(cfg, key)
    requires IsVerifiedKey(Run(t, cfg, events).rows, key, k)
    ensures IsVerifiedKey(t.rows, key, k) || IsSignedKey(events, key, k)
  {
    hide IsGood, Step, PreservesKey;
    if events != [] {
      var init, e := events[..|events| - 1], events[|events| - 1];
      var before, after := Run(t, cfg, init), Run(t, cfg, events);
      RunKeepsGood(t, cfg, init);
      var i :| 0 <= i < |after.rows| && after.rows[i].verified.Some? && key(after.rows[i].address) == k;
      StepVerifiesBySignature(before, cfg, e, key, i);
      if IsVerifiedKey(before.rows, key, k) {
        RunVerifiesBySignature(t, cfg, init, key, k);
        if IsSignedKey(init, key, k) {
          var j :| 0 <= j < |init| && Signs(init[j], key, k);
          assert events[j] == init[j];
        }
      }
    }
  }

  // ----- the token of a linked address

  /** Whether a verification at time `later` is turned away because the token has expired. */
  predicate IsTurnedAway(rows: seq<Row>, chain: ChainId, address: Address, later: int)
  {
    var found := FindOne(rows, At(chain, address));
    found.Some? && HasExpired(rows[found.value], later)
  }

  /**
   Whether the linked address can be verified with the token the request returns: from the
   moment of the link on it is turned away exactly when the original's token had expired,
   or when ten minutes have passed. An original whose token had expired hands the expired
   token on, although the code means to replace it then.
   */
  lemma LinkedTokenIsUsable(t: Table, cfg: Config, user: UserId, address: Address, chain: ChainId,
                            originChain: ChainId, keytype: Option<string>, token: string, now: int, later: int)
    requires IsGood(t.rows) && chain in cfg.chains && now <= later
    requires FindOne(t.rows, Where(originChain, address, Some(user))).Some? && EncodedFor(cfg, chain, address).Some?
    ensures var original := t.rows[FindOne(t.rows, Where(originChain, address, Some(user))).value];
      var after := LinkExistingAddressToChain(t, cfg, Some(user), address, chain, originChain, keytype, token, now).rows;
      IsTurnedAway(after, chain, EncodedFor(cfg, chain, address).value, later) <==>
      (original.expires.Some? && original.expires.value <= now) || now + 600_000 <= later
  {
    hide IsGood, FindOne, RefreshTokens, EncodedFor;
    var origin := FindOne(t.rows, Where(originChain, address, Some(user)));
    var original, encoded := t.rows[origin.value], EncodedFor(cfg, chain, address).value;
    var rows := RefreshedForLink(t.rows, cfg, original, user, address, chain, token, now);
    var linked := LinkToken(original, token, now);
    RefreshKeepsGood(t, cfg, original, user, address, chain, token, now);
    LinkRowKeepsGood(rows, original, user, chain, encoded, keytype, linked);
    LinkedRowHasToken(rows, original, user, chain, encoded, keytype, linked);
  }

  lemma LinkedRowHasToken(rows: seq<Row>, original: Row, user: UserId, chain: ChainId, encoded: Address,
                          keytype: Option<string>, token: (string, Option<int>))
    requires IsGood(rows) && original.userId == Some(user)
    ensures var after := LinkRow(rows, original, user, chain, encoded, keytype, token);
      var found := FindOne(after, At(chain, encoded));
      found.Some? && after[found.value].expires == token.1 && after[found.value].token == token.0
      && after[found.value].userId == Some(user)
  {
    hide IsUnique, VerifiedIsOwned;
    var after := LinkRow(rows, original, user, chain, encoded, keytype, token);
    LinkRowKeepsGood(rows, original, user, chain, encoded, keytype, token);
    var found := FindOne(rows, At(chain, encoded));
    var i := if found.Some? then found.value else |rows|;
    FindOneIsRow(after, i, chain, encoded);
  }

  lemma RunSnoc(t: Table, cfg: Config, events: seq<Timed>, e: Timed)
    ensures Run(t, cfg, events + [e]) == Step(Run(t, cfg, events), cfg, e)
  {
    assert (events + [e])[..|events|] == events;
  }

  lemma FindOnly(r: Row, w: Where)
    ensures FindOne([], w) == None
    ensures FindOne([r], w) == if w.Matches(r) then Some(0) else None
  {
    assert [r][..0] == [];
  }

  /** An address created, verified and given a new token ten minutes before `now`, as a run leaves it. */
  lemma RefreshedRow(cfg: Config, user: UserId, chain: ChainId, address: Address, now: int)
    requires chain in cfg.chains
    ensures var start := now - ADDRESS_TOKEN_EXPIRES_IN;
      var events := [Timed(Create(Some(user), chain, address, None, "first"), start - 2),
                     Timed(Verify(Some(user), chain, address, true), start - 1)] +
                    [Timed(Create(Some(user), chain, address, None, "second"), start)];
      Run(Table([], user), cfg, events) ==
      Table([Row(address, chain, Some(user), Some(start - 1), "second", Some(now), None, false)], user)
  {
    hide FindOne;
    var start := now - ADDRESS_TOKEN_EXPIRES_IN;
    var create := Timed(Create(Some(user), chain, address, None, "first"), start - 2);
    var verify := Timed(Verify(Some(user), chain, address, true), start - 1);
    var created := RowWithToken(Some(user), chain, address, None, "first", start - 2);
    var verified := created.(expires := None, verified := Some(start - 1));
    assert [] + [create] == [create] && [create] + [verify] == [create, verify];
    RunSnoc(Table([], user), cfg, [], create);
    RunSnoc(Table([], user), cfg, [create], verify);
    RunSnoc(Table([], user), cfg, [create, verify], Timed(Create(Some(user), chain, address, None, "second"), start));
    FindOnly(created, At(chain, address));
    FindOnly(verified, At(chain, address));
    assert Run(Table([], user), cfg, [create]) == Table([created], user);
    assert Run(Table([], user), cfg, [create, verify]) == Table([verified], user);
  }

  /**
   Such an input can be met: verify an address, ask for a new token, wait ten minutes and
   link. The linked address cannot be verified even at the moment of the link.
   */
  lemma ExpiredTokenIsHandedOn(cfg: Config, user: UserId, origin: ChainId, chain: ChainId, address: Address, now: int)
    requires origin in cfg.chains && chain in cfg.chains && cfg.chains[chain] != Substrate
    ensures var start := now - ADDRESS_TOKEN_EXPIRES_IN;
      var events := [Timed(Create(Some(user), origin, address, None, "first"), start - 2),
                     Timed(Verify(Some(user), origin, address, true), start - 1)] +
                    [Timed(Create(Some(user), origin, address, None, "second"), start)];
      var link := Timed(Link(Some(user), address, chain, origin, None, "third"), now);
      IsTurnedAway(Run(Table([], user), cfg, events + [link]).rows, chain, address, now)
  {
    var start := now - ADDRESS_TOKEN_EXPIRES_IN;
    var events := [Timed(Create(Some(user), origin, address, None, "first"), start - 2),
                   Timed(Verify(Some(user), origin, address, true), start - 1)] +
                  [Timed(Create(Some(user), origin, address, None, "second"), start)];
    var r := Row(address, origin, Some(user), Some(start - 1), "second", Some(now), None, false);
    hide FindOne, LinkExistingAddressToChain, Run, IsTurnedAway;
    RefreshedRow(cfg, user, origin, address, now);
    RunSnoc(Table([], user), cfg, events, Timed(Link(Some(user), address, chain, origin, None, "third"), now));
    FindOnly(r, Where(origin, address, Some(user)));
    LinkedTokenIsUsable(Table([r], user), cfg, user, address, chain, origin, None, "third", now, now);
  }

  // ----- a create request and the verification after it

  /**
   Whoever owned the row before: a create request followed by a valid signature within ten
   minutes makes the requester its verified owner, and no later signature with that token does.
   */
  lemma CreateThenVerify(t: Table, cfg: Config, user: UserId, chain: ChainId, address: Address,
                         keytype: Option<string>, token: string, now: int, later: int)
    requires IsGood(t.rows) && chain in cfg.chains
    ensures var created := CreateAddress(t, cfg, Some(user), chain, address, keytype, token, now);
      var after := VerifyAddress(created, cfg, Some(user), chain, address, true, later);
      var found := FindOne(created.rows, At(chain, address));
      && found.Some? && found == FindOne(after.rows, At(chain, address))
      && (later < now + 600_000 ==>
            var r := after.rows[found.value]; r.userId == Some(user) && r.verified == Some(later) && r.expires == None)
      && (later >= now + 600_000 ==> after == created)
      && (forall i :: 0 <= i < |t.rows| && i != found.value ==> after.rows[i] == t.rows[i])
  {
    hide FindOne, IsGood;
    var created := CreateAddress(t, cfg, Some(user), chain, address, keytype, token, now);
    var after := VerifyAddress(created, cfg, Some(user), chain, address, true, later);
    var before := FindOne(t.rows, At(chain, address));
    var i := if before.Some? then before.value else |t.rows|;
    StepKeepsGood(t, cfg, Timed(Create(Some(user), chain, address, keytype, token), now));
    StepKeepsGood(created, cfg, Timed(Verify(Some(user), chain, address, true), later));
    IsRowOf(created.rows, i, chain, address);
    IsRowOf(after.rows, i, chain, address);
  }

  lemma IsRowOf(rows: seq<Row>, i: nat, chain: ChainId, address: Address)
    requires IsGood(rows) && i < |rows| && rows[i].chain == chain && rows[i].address == address
    ensures FindOne(rows, At(chain, address)) == Some(i)
  {
    FindOneIsRow(rows, i, chain, address);
  }

  // ----- merging on email login

  /**
   Merging hands every verified address of the session's user to the found user, lets go of
   the found user's unverified ones, and touches no other row. Nothing becomes verified or
   loses its verification.
   */
  lemma MergeMovesVerifiedRows(rows: seq<Row>, previous: UserId, existing: UserId, i: nat)
    requires i < |rows| && previous != existing
    ensures var r, after := rows[i], MergeAddresses(rows, previous, existing)[i];
      && after.verified == r.verified
      && (r.verified.Some? ==> (after.userId == Some(existing) <==> r.userId == Some(previous) || r.userId == Some(existing)))
      && (r.verified.Some? ==> after.userId != Some(previous))
      && (r.verified.None? ==> after.userId == if r.userId == Some(existing) then None else r.userId)
      && (r.userId != Some(previous) && r.userId != Some(existing) ==> after == r)
  {
  }
  /** The positions of the verified rows of a user. */
  function VerifiedRows(rows: seq<Row>, user: UserId): set<nat>
  {
    set i | 0 <= i < |rows| && rows[i].userId == Some(user) && rows[i].verified.Some?
  }

  /**
   The verified addresses of both users are together those of the found user; the session's
   user keeps none, other users keep theirs, and merging once more changes nothing.
   */
  lemma MergeUnitesVerifiedRows(rows: seq<Row>, previous: UserId, existing: UserId, other: UserId)
    requires previous != existing && other != previous && other != existing
    ensures var after := MergeAddresses(rows, previous, existing);
      && VerifiedRows(after, existing) == VerifiedRows(rows, previous) + VerifiedRows(rows, existing)
      && VerifiedRows(after, previous) == {}
      && VerifiedRows(after, other) == VerifiedRows(rows, other)
      && MergeAddresses(after, previous, existing) == after
  {
    hide MergeAddresses, MergedRow;
    var after := MergeAddresses(rows, previous, existing);
    var twice := MergeAddresses(after, previous, existing);
    forall i | 0 <= i < |rows|
      ensures after[i].verified == rows[i].verified
      ensures rows[i].verified.Some? ==>
        after[i].userId == if rows[i].userId == Some(previous) then Some(existing) else rows[i].userId
      ensures twice[i] == after[i]
    {
      MergeAddressesAt(rows, previous, existing, i);
      MergeAddressesAt(after, previous, existing, i);
      MergedTwice(rows[i], previous, existing);
    }
    assert twice == after;
  }

  lemma MergedTwice(r: Row, previous: UserId, existing: UserId)
    requires previous != existing
    ensures var m := MergedRow(r, previous, existing);
      && m.verified == r.verified && MergedRow(m, previous, existing) == m
      && (r.verified.Some? ==> m.userId == if r.userId == Some(previous) then Some(existing) else r.userId)
  {
  }

  // ----- verification and users

  /** A request with an invalid signature, for an unknown or expired address changes nothing. */
  lemma VerifyRefused(t: Table, cfg: Config, user: Option<UserId>, chain: ChainId, address: Address, isValid: bool, now: int)
    requires || !isValid || chain !in cfg.chains
             || forall i :: 0 <= i < |t.rows| && t.rows[i].chain == chain && t.rows[i].address == address ==>
                  t.rows[i].expires.Some? && t.rows[i].expires.value <= now
    ensures VerifyAddress(t, cfg, user, chain, address, isValid, now) == t
  {
  }

  ghost predicate OwnersExist(t: Table)
  {
    forall i :: 0 <= i < |t.rows| && t.rows[i].userId.Some? ==> t.rows[i].userId.value <= t.users
  }

  /** A row whose token has not expired, for which a valid signature arrives. */
  ghost predicate IsSigned(t: Table, cfg: Config, i: nat, now: int)
  {
    && i < |t.rows| && t.rows[i].chain in cfg.chains
    && (t.rows[i].expires.Some? ==> now < t.rows[i].expires.value)
  }

  /**
   What a valid signature does: a logged-in user becomes the owner; a logged-out visitor
   leaves the owner there is, and of an ownerless address becomes a new user, who is the
   owner of this row alone. Nothing else changes.
   */
  lemma SignatureDecidesOwner(t: Table, cfg: Config, user: Option<UserId>, i: nat, now: int)
    requires IsGood(t.rows) && OwnersExist(t) && IsSigned(t, cfg, i, now)
    ensures var after := VerifyAddress(t, cfg, user, t.rows[i].chain, t.rows[i].address, true, now);
      && |after.rows| == |t.rows| && (forall j :: 0 <= j < |t.rows| && j != i ==> after.rows[j] == t.rows[j])
      && after.rows[i].verified == Some(now) && after.rows[i].expires == None
      && after.rows[i].token == t.rows[i].token && after.rows[i].keytype == t.rows[i].keytype
      && after.rows[i].isMagic == t.rows[i].isMagic
      && (user.Some? ==> after.rows[i].userId == user && after.users == t.users)
      && (user.None? && t.rows[i].userId.Some? ==> after.rows[i].userId == t.rows[i].userId && after.users == t.users)
      && (user.None? && t.rows[i].userId.None? ==>
            && after.users == t.users + 1 && after.rows[i].userId == Some(after.users)
            && forall j :: 0 <= j < |t.rows| && j != i ==> after.rows[j].userId != Some(after.users))
  {
    hide FindOne, IsGood;
    IsRowOf(t.rows, i, t.rows[i].chain, t.rows[i].address);
  }

  /** The users named by a request exist. */
  predicate IsByExistingUsers(t: Table, e: Timed)
  {
    match e.request
    case ProfileEvent(_, _) => true
    case Create(user, _, _, _, _) => user.Some? ==> user.value <= t.users
    case Verify(user, _, _, _) => user.Some? ==> user.value <= t.users
    case Delete(user, _, _) => user.Some? ==> user.value <= t.users
    case Link(user, _, _, _, _, _) => user.Some? ==> user.value <= t.users
    case EmailLogin(session, _, existing) =>
      (session.Some? ==> session.value.id <= t.users) && (existing.Some? ==> existing.value <= t.users)
  }

  predicate RunIsByExistingUsers(t: Table, cfg: Config, events: seq<Timed>)
  {
    events == [] ||
    (var init, e := events[..|events| - 1], events[|events| - 1];
     RunIsByExistingUsers(t, cfg, init) && IsByExistingUsers(Run(t, cfg, init), e))
  }

  lemma LinkKeepsOwners(t: Table, cfg: Config, e: Timed)
    requires OwnersExist(t) && IsByExistingUsers(t, e) && e.request.Link?
    ensures OwnersExist(Step(t, cfg, e)) && Step(t, cfg, e).users == t.users
  {
    hide FindOne, EncodedFor, RefreshTokens, LinkToken;
    var Link(user, address, chain, originChain, keytype, token) := e.request;
    if user.Some? && chain in cfg.chains {
      var origin := FindOne(t.rows, Where(originChain, address, user));
      if origin.Some? {
        RefreshKeepsGood(t, cfg, t.rows[origin.value], user.value, address, chain, token, e.now);
      }
    }
  }

  lemma MergeKeepsOwners(t: Table, previous: UserId, existing: UserId)
    requires OwnersExist(t) && existing <= t.users
    ensures OwnersExist(t.(rows := MergeAddresses(t.rows, previous, existing)))
  {
    hide MergeAddresses;
    forall i | 0 <= i < |t.rows| ensures MergeAddresses(t.rows, previous, existing)[i] == MergedRow(t.rows[i], previous, existing) {
      MergeAddressesAt(t.rows, previous, existing, i);
    }
  }

  lemma StepKeepsOwners(t: Table, cfg: Config, e: Timed)
    requires OwnersExist(t) && IsByExistingUsers(t, e)
    ensures OwnersExist(Step(t, cfg, e)) && t.users <= Step(t, cfg, e).users
  {
    hide FindOne, MergeAddresses, LinkExistingAddressToChain;
    match e.request
    case Link(_, _, _, _, _, _) => LinkKeepsOwners(t, cfg, e);
    case EmailLogin(session, _, existing) =>
      if session.Some? && existing.Some? {
        MergeKeepsOwners(t, session.value.id, existing.value);
      }
    case _ =>
  }

  /** In every run of requests by existing users, every owner is a user that was created. */
  lemma {:induction false} RunKeepsOwners(t: Table, cfg: Config, events: seq<Timed>)
    requires OwnersExist(t) && RunIsByExistingUsers(t, cfg, events)
    ensures OwnersExist(Run(t, cfg, events)) && t.users <= Run(t, cfg, events).users
  {
    if events != [] {
      hide OwnersExist, Step, IsByExistingUsers;
      var init := events[..|events| - 1];
      RunKeepsOwners(t, cfg, init);
      StepKeepsOwners(Run(t, cfg, init), cfg, events[|events| - 1]);
    }
  }

  /** Two visitors who verify two ownerless addresses without logging in, at whatever time in a run, are two users. */
  lemma StrangersAreTwoUsers(t: Table, cfg: Config, i: nat, now: int, events: seq<Timed>, j: nat, later: int)
    requires IsGood(t.rows) && OwnersExist(t) && IsSigned(t, cfg, i, now) && t.rows[i].userId.None?
    requires var first := VerifyAddress(t, cfg, None, t.rows[i].chain, t.rows[i].address, true, now);
      RunIsByExistingUsers(first, cfg, events)
      && var between := Run(first, cfg, events);
        IsSigned(between, cfg, j, later) && between.rows[j].userId.None?
    ensures var first := VerifyAddress(t, cfg, None, t.rows[i].chain, t.rows[i].address, true, now);
      var between := Run(first, cfg, events);
      var second := VerifyAddress(between, cfg, None, between.rows[j].chain, between.rows[j].address, true, later);
      first.rows[i].userId.Some? && second.rows[j].userId.Some? && first.rows[i].userId != second.rows[j].userId
  {
    var verify := Timed(Verify(None, t.rows[i].chain, t.rows[i].address, true), now);
    var first := VerifyAddress(t, cfg, None, t.rows[i].chain, t.rows[i].address, true, now);
    SignatureDecidesOwner(t, cfg, None, i, now);
    StepKeepsGood(t, cfg, verify);
    StepKeepsOwners(t, cfg, verify);
    assert Step(t, cfg, verify) == first;
    hide VerifyAddress, Step, IsGood, OwnersExist;
    RunKeepsGood(first, cfg, events);
    RunKeepsOwners(first, cfg, events);
    SignatureDecidesOwner(Run(first, cfg, events), cfg, None, j, later);
  }

  // ----- the effect of the other requests

  /** A create request for an unknown chain changes nothing. */
  lemma CreateNeedsChain(t: Table, cfg: Config, user: Option<UserId>, chain: ChainId, address: Address,
                         keytype: Option<string>, token: string, now: int)
    requires chain !in cfg.chains
    ensures CreateAddress(t, cfg, user, chain, address, keytype, token, now) == t
  {
  }

  /** A new address belongs to whoever asked for it, logged in or not, but is not verified. */
  lemma NewAddress(t: Table, cfg: Config, user: Option<UserId>, chain: ChainId, address: Address,
                   keytype: Option<string>, token: string, now: int)
    requires chain in cfg.chains
    requires forall i :: 0 <= i < |t.rows| ==> t.rows[i].chain != chain || t.rows[i].address != address
    ensures var after := CreateAddress(t, cfg, user, chain, address, keytype, token, now);
      && after.users == t.users && |after.rows| == |t.rows| + 1 && after.rows[..|t.rows|] == t.rows
      && var r := after.rows[|t.rows|];
        && r.address == address && r.chain == chain && r.userId == user && r.verified == None
        && r.token == token && r.expires == Some(now + 600_000) && r.keytype == keytype && !r.isMagic
  {
  }

  /** An address seen on the chain gets a row only if it has none; nobody owns it and no signature for it is accepted. */
  lemma ProfileRowIsInert(t: Table, cfg: Config, user: Option<UserId>, chain: ChainId, address: Address, now: int, later: int)
    requires now <= later
    ensures var after := CreateEmpty(t, chain, address, now);
      && after.users == t.users && t.rows <= after.rows
      && (|after.rows| == |t.rows| <==> exists i :: 0 <= i < |t.rows| && t.rows[i].chain == chain && t.rows[i].address == address)
      && (|after.rows| > |t.rows| ==>
            && |after.rows| == |t.rows| + 1
            && after.rows[|t.rows|] == Row(address, chain, None, None, "NO_USER", Some(now), None, false)
            && VerifyAddress(after, cfg, user, chain, address, true, later) == after)
  {
    hide VerifySignature;
    var after := CreateEmpty(t, chain, address, now);
    if |after.rows| > |t.rows| {
      VerifyRefused(after, cfg, user, chain, address, true, later);
    }
  }

  /** Deleting takes effect exactly for the owner of a row that is no magic row; it leaves an ownerless, unverified address. */
  lemma DeleteDisowns(t: Table, user: Option<UserId>, i: nat)
    requires IsGood(t.rows) && i < |t.rows|
    ensures var r, after := t.rows[i], DeleteAddress(t, user, t.rows[i].chain, t.rows[i].address);
      if user.Some? && r.userId == user && !r.isMagic then
        after == t.(rows := t.rows[i := r.(userId := None, verified := None)])
      else after == t
  {
    hide FindOne, IsGood;
    IsRowOf(t.rows, i, t.rows[i].chain, t.rows[i].address);
  }

  /** What its owner deleted, any other user may take over at once. */
  lemma DeletedIsFree(t: Table, cfg: Config, user: UserId, other: UserId, i: nat, token: string, now: int)
    requires IsGood(t.rows) && i < |t.rows| && t.rows[i].userId == Some(user) && !t.rows[i].isMagic
    requires t.rows[i].chain in cfg.chains
    ensures var deleted := DeleteAddress(t, Some(user), t.rows[i].chain, t.rows[i].address);
      var taken := CreateAddress(deleted, cfg, Some(other), t.rows[i].chain, t.rows[i].address, None, token, now);
      taken.rows[i].userId == Some(other) && taken.rows[i].verified == None
  {
    hide FindOne, IsGood;
    var r := t.rows[i];
    DeleteDisowns(t, Some(user), i);
    StepKeepsGood(t, cfg, Timed(Delete(Some(user), r.chain, r.address), now));
    var deleted := DeleteAddress(t, Some(user), r.chain, r.address);
    IsRowOf(deleted.rows, i, r.chain, r.address);
    CreateClaims(deleted, cfg, Some(other), r.chain, r.address, None, token, now, i);
  }

  /** The user's own verified row of an address on a chain. */
  ghost predicate IsOriginal(t: Table, i: nat, user: Option<UserId>, address: Address, originChain: ChainId)
  {
    && i < |t.rows| && t.rows[i].chain == originChain && t.rows[i].address == address
    && user.Some? && t.rows[i].userId == user && t.rows[i].verified.Some?
  }

  lemma OriginalIsFound(t: Table, user: Option<UserId>, address: Address, originChain: ChainId)
    requires user.Some?
    ensures var origin := FindOne(t.rows, Where(originChain, address, user));
      origin.Some? ==> IsOriginal(t, origin.value, user, address, originChain)
  {
  }

  /** A link request without such a row, or for an unknown chain, changes nothing. */
  lemma LinkNeedsOriginal(t: Table, cfg: Config, user: Option<UserId>, address: Address, chain: ChainId,
                          originChain: ChainId, keytype: Option<string>, token: string, now: int)
    requires chain !in cfg.chains || forall i: nat :: !IsOriginal(t, i, user, address, originChain)
    ensures LinkExistingAddressToChain(t, cfg, user, address, chain, originChain, keytype, token, now) == t
  {
    hide RefreshTokens, EncodedFor, LinkRow;
    if user.Some? && chain in cfg.chains {
      OriginalIsFound(t, user, address, originChain);
    }
  }

  /**
   Otherwise the address, re-encoded on a Substrate chain, ends up as the user's. A row that
   was there keeps its verification, a new row has the original's; other rows keep all but
   their tokens.
   */
  lemma LinkGivesAddress(t: Table, cfg: Config, user: UserId, address: Address, chain: ChainId, originChain: ChainId,
                         keytype: Option<string>, token: string, now: int, i: nat, encoded: Address)
    requires IsGood(t.rows) && chain in cfg.chains && IsOriginal(t, i, Some(user), address, originChain)
    requires if cfg.chains[chain] == Substrate then cfg.encode(address, chain) == Some(encoded) else encoded == address
    ensures var after := LinkExistingAddressToChain(t, cfg, Some(user), address, chain, originChain, keytype, token, now);
      && after.users == t.users
      && (forall j :: 0 <= j < |t.rows| ==>
            && j < |after.rows| && after.rows[j].verified == t.rows[j].verified && after.rows[j].isMagic == t.rows[j].isMagic
            && if t.rows[j].chain == chain && t.rows[j].address == encoded
               then |after.rows| == |t.rows| && after.rows[j].userId == Some(user) && after.rows[j].keytype == keytype
               else after.rows[j].userId == t.rows[j].userId && after.rows[j].keytype == t.rows[j].keytype)
      && ((forall j :: 0 <= j < |t.rows| ==> t.rows[j].chain != chain || t.rows[j].address != encoded) ==>
            && |after.rows| == |t.rows| + 1
            && var r := after.rows[|t.rows|];
              && r.address == encoded && r.chain == chain && r.userId == Some(user) && !r.isMagic
              && r.verified == t.rows[i].verified && r.keytype == t.rows[i].keytype)
  {
    hide FindOne, VerifiedIsOwned, IsUnique, RefreshTokens, LinkToken;
    var where := Where(originChain, address, Some(user));
    var origin := FindOne(t.rows, where);
    assert where.Matches(t.rows[i]);
    FindOneIsRow(t.rows, i, originChain, address);
    FindOneIsRow(t.rows, origin.value, originChain, address);
    RefreshKeepsGood(t, cfg, t.rows[i], user, address, chain, token, now);
    var rows := RefreshedForLink(t.rows, cfg, t.rows[i], user, address, chain, token, now);
    var found := FindOne(rows, At(chain, encoded));
    if found.None? {
      forall j | 0 <= j < |rows| ensures rows[j].chain != chain || rows[j].address != encoded {
        assert !At(chain, encoded).Matches(rows[j]);
      }
    } else {
      forall j | 0 <= j < |rows| && rows[j].chain == chain && rows[j].address == encoded ensures j == found.value {
        FindOneIsRow(rows, j, chain, encoded);
      }
    }
  }

  /**
   The rows of the address on all chains of the same base get the fresh token along with the
   linked one, even if the address cannot be re-encoded, unless the original's has expired.
   No other row changes.
   */
  lemma LinkRefreshesTokens(t: Table, cfg: Config, user: UserId, address: Address, chain: ChainId, originChain: ChainId,
                            keytype: Option<string>, token: string, now: int, i: nat, j: nat)
    requires IsGood(t.rows) && chain in cfg.chains && IsOriginal(t, i, Some(user), address, originChain)
    requires j < |t.rows|
    requires t.rows[j].chain == chain && cfg.chains[chain] == Substrate ==> cfg.encode(address, chain) != Some(t.rows[j].address)
    requires t.rows[j].chain == chain && cfg.chains[chain] != Substrate ==> t.rows[j].address != address
    ensures var after := LinkExistingAddressToChain(t, cfg, Some(user), address, chain, originChain, keytype, token, now);
      j < |after.rows| && after.rows[j] ==
      var r, original := t.rows[j], t.rows[i];
      if (original.expires.None? || now < original.expires.value)
         && r.userId == Some(user) && r.address == address && r.chain in cfg.chains && cfg.chains[r.chain] == cfg.chains[chain]
      then r.(token := token, expires := Some(now + 600_000)) else r
  {
    hide FindOne, VerifiedIsOwned, IsUnique, RefreshTokens, LinkToken;
    var where := Where(originChain, address, Some(user));
    var origin := FindOne(t.rows, where);
    assert where.Matches(t.rows[i]);
    FindOneIsRow(t.rows, i, originChain, address);
    FindOneIsRow(t.rows, origin.value, originChain, address);
    RefreshTokensAt(t.rows, cfg, user, address, cfg.chains[chain], token, now + ADDRESS_TOKEN_EXPIRES_IN, j);
    RefreshKeepsGood(t, cfg, t.rows[i], user, address, chain, token, now);
  }

  /**
   When an email login changes rows: a session that has not verified an email yet presents a
   token before it expires, for the email of another user. And when it creates a user.
   */
  lemma EmailLoginMerges(t: Table, session: Option<Session>, tokenExpires: Option<int>, existing: Option<UserId>, now: int)
    ensures var after := FinishEmailLogin(t, session, tokenExpires, existing, now);
      var accepted := tokenExpires.Some? && now < tokenExpires.value
                      && !(session.Some? && session.value.hasEmail && session.value.emailVerified);
      && (if accepted && session.Some? && existing.Some? && session.value.id != existing.value
          then after.rows == MergeAddresses(t.rows, session.value.id, existing.value)
          else after.rows == t.rows)
      && after.users == t.users + (if accepted && existing.None? && (session.None? || session.value.hasEmail) then 1 else 0)
  {
  }
}
