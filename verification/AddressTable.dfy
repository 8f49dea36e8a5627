/** The address routes, acting on the stored rows. */
module AddressTable {
  import opened Wrappers
  import opened Places
  import opened Addresses

  class AddressStore {
    const cfg: Config
    var rows: seq<Row>
    var users: nat

    function Model(): Table
      reads this
    {
      Table(rows, users)
    }

    /** Verified rows have an owner, and no address is stored twice for one chain. */
    ghost predicate Valid()
      reads this
    {
      IsGood(rows)
    }

    constructor (cfg: Config)
      ensures Valid() && this.cfg == cfg && Model() == Table([], 0)
    {
      this.cfg := cfg;
      rows, users := [], 0;
    }

    method Find(w: Where) returns (r: Option<nat>)
      ensures r == FindOne(rows, w)
    {
      for i := 0 to |rows|
        invariant FindOne(rows[..i], w).None?
      {
        assert rows[..i + 1][..i] == rows[..i];
        if w.Matches(rows[i]) {
          FindOneIsFirst(rows, w, i);
          return Some(i);
        }
      }
      assert rows[..|rows|] == rows;
      return None;
    }

    method CreateEmptyAddress(chain: ChainId, address: Address, now: int)
      requires Valid()
      modifies this
      ensures Valid() && Model() == CreateEmpty(old(Model()), chain, address, now)
    {
      StepKeepsGood(Model(), cfg, Timed(ProfileEvent(chain, address), now));
      var existing := Find(At(chain, address));
      if existing.None? {
        rows := rows + [EmptyRow(chain, address, now)];
      }
    }

    method Create(user: Option<UserId>, chain: ChainId, address: Address, keytype: Option<string>, token: string, now: int)
      requires Valid()
      modifies this
      ensures Valid() && Model() == CreateAddress(old(Model()), cfg, user, chain, address, keytype, token, now)
    {
      StepKeepsGood(Model(), cfg, Timed(Request.Create(user, chain, address, keytype, token), now));
      if chain !in cfg.chains {
        return;
      }
      var existing := Find(At(chain, address));
      if existing.Some? {
        // an address on another user is only taken over if unverified and expired, or disowned
        var r := rows[existing.value];
        var isExpired := r.expires.Some? && r.expires.value <= now;
        var isDisowned := r.userId.None?;
        var isCurrUser := user.Some? && r.userId == user;
        var updatedId := if user.Some? && ((r.verified.None? && isExpired) || isDisowned || isCurrUser) then user else None;
        rows := rows[existing.value := UpdateWithToken(r, updatedId, keytype, token, now)];
      } else {
        rows := rows + [RowWithToken(user, chain, address, keytype, token, now)];
      }
    }

    method Verify(user: Option<UserId>, chain: ChainId, address: Address, isValid: bool, now: int)
      requires Valid()
      modifies this
      ensures Valid() && Model() == VerifyAddress(old(Model()), cfg, user, chain, address, isValid, now)
    {
      StepKeepsGood(Model(), cfg, Timed(Request.Verify(user, chain, address, isValid), now));
      if chain !in cfg.chains {
        return;
      }
      var existing := Find(At(chain, address));
      if existing.None? {
        return;
      }
      var r := rows[existing.value];
      if r.expires.Some? && r.expires.value <= now {
        return;
      }
      if isValid && user.None? {
        r := r.(expires := None, verified := Some(now));
        if r.userId.None? {
          users := users + 1;
          r := r.(userId := Some(users));
        }
        rows := rows[existing.value := r];
      } else if isValid {
        rows := rows[existing.value := r.(expires := None, verified := Some(now), userId := user)];
      }
    }

    method Delete(user: Option<UserId>, chain: ChainId, address: Address)
      requires Valid()
      modifies this
      ensures Valid() && Model() == DeleteAddress(old(Model()), user, chain, address)
    {
      StepKeepsGood(Model(), cfg, Timed(Request.Delete(user, chain, address), 0));
      if user.None? {
        return;
      }
      var found := Find(At(chain, address));
      if found.None? || rows[found.value].userId != user || rows[found.value].isMagic {
        return;
      }
      rows := rows[found.value := rows[found.value].(userId := None)];
      rows := rows[found.value := rows[found.value].(verified := None)];
    }

    /** The bulk update of a link request. */
    method UpdateTokens(user: UserId, address: Address, base: Base, token: string, expires: int)
      modifies this`rows
      ensures rows == RefreshTokens(old(rows), cfg, user, address, base, token, expires)
    {
      hide SharesToken;
      ghost var before := rows;
      for i := 0 to |rows|
        invariant |rows| == |before|
        invariant forall j :: i <= j < |rows| ==> rows[j] == before[j]
        invariant rows[..i] == RefreshTokens(before[..i], cfg, user, address, base, token, expires)
      {
        assert before[..i + 1][..i] == before[..i];
        ghost var done := rows[..i];
        if SharesToken(rows[i], cfg, user, address, base) {
          rows := rows[i := rows[i].(token := token, expires := Some(expires))];
        }
        assert rows[..i + 1] == done + [rows[i]];
      }
      assert rows[..|rows|] == rows && before[..|before|] == before;
    }

    method Link(user: Option<UserId>, address: Address, chain: ChainId, originChain: ChainId,
                keytype: Option<string>, freshToken: string, now: int)
      requires Valid()
      modifies this`rows
      ensures Valid() && Model() == LinkExistingAddressToChain(old(Model()), cfg, user, address, chain, originChain, keytype, freshToken, now)
    {
      StepKeepsGood(Model(), cfg, Timed(Request.Link(user, address, chain, originChain, keytype, freshToken), now));
      if user.None? || chain !in cfg.chains {
        return;
      }
      // the original address must be verified and owned by the user
      var origin := Find(Where(originChain, address, user));
      if origin.None? {
        return;
      }
      var original := rows[origin.value];
      var token, expires := original.token, original.expires;
      var isOriginalTokenValid := expires.Some? && expires.value <= now;
      if !isOriginalTokenValid {
        token, expires := freshToken, Some(now + ADDRESS_TOKEN_EXPIRES_IN);
        UpdateTokens(user.value, address, cfg.chains[chain], token, now + ADDRESS_TOKEN_EXPIRES_IN);
      }
      var encoded := EncodedFor(cfg, chain, address);
      if encoded.None? {
        return;
      }
      var existing := Find(At(chain, encoded.value));
      if existing.Some? {
        rows := rows[existing.value := UpdateWithTokenProvided(rows[existing.value], user.value, keytype, token, expires)];
      } else {
        rows := rows + [Row(encoded.value, chain, original.userId, original.verified, token, expires, original.keytype, false)];
      }
    }

    /** The association setter of an email login. */
    method SetAddresses(previous: UserId, existing: UserId)
      modifies this`rows
      ensures rows == MergeAddresses(old(rows), previous, existing)
    {
      ghost var before := rows;
      for i := 0 to |rows|
        invariant |rows| == |before|
        invariant forall j :: i <= j < |rows| ==> rows[j] == before[j]
        invariant rows[..i] == MergeAddresses(before[..i], previous, existing)
      {
        assert before[..i + 1][..i] == before[..i];
        ghost var done := rows[..i];
        var r := rows[i];
        if r.verified.Some? && (r.userId == Some(previous) || r.userId == Some(existing)) {
          rows := rows[i := r.(userId := Some(existing))];
        } else if r.userId == Some(existing) {
          rows := rows[i := r.(userId := None)];
        }
        assert rows[..i + 1] == done + [rows[i]];
      }
      assert rows[..|rows|] == rows && before[..|before|] == before;
    }

    method EmailLogin(session: Option<Session>, tokenExpires: Option<int>, existing: Option<UserId>, now: int)
      requires Valid()
      modifies this
      ensures Valid() && Model() == FinishEmailLogin(old(Model()), session, tokenExpires, existing, now)
    {
      StepKeepsGood(Model(), cfg, Timed(Request.EmailLogin(session, tokenExpires, existing), now));
      if session.Some? && session.value.hasEmail && session.value.emailVerified {
        return;
      }
      if tokenExpires.None? || now >= tokenExpires.value {
        return;
      }
      if existing.Some? {
        if session.Some? && session.value.id != existing.value {
          SetAddresses(session.value.id, existing.value);
        }
      } else if session.None? || session.value.hasEmail {
        users := users + 1;
      }
    }
  }

  lemma {:induction false} FindOneIsFirst(rows: seq<Row>, w: Where, i: nat)
    requires i < |rows| && w.Matches(rows[i]) && FindOne(rows[..i], w).None?
    ensures FindOne(rows, w) == Some(i)
  {
    var n := |rows| - 1;
    if i < n {
      assert rows[..n][..i] == rows[..i];
      FindOneIsFirst(rows[..n], w, i);
    }
  }
}
