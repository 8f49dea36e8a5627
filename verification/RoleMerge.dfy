/**
 The migration that prepares the roles table for its uniqueness constraints: duplicate
 roles of one address in one chain or community are replaced by a single role with the
 highest permission among them.
 */
module RoleMerge {
  import opened Wrappers
  import opened Places

  datatype Permission = Member | Moderator | Admin {
    function Rank(): nat {
      match this
      case Member => 0
      case Moderator => 1
      case Admin => 2
    }
  }

  datatype Role = Role(address: nat, chain: Option<ChainId>, community: Option<CommunityId>, permission: Permission)

  type Roles = map<nat, Role>

  // ----- the two grouping queries

  /** A group of the chain query (rows without community) or of the community query (rows without chain). */
  datatype Key = ChainKey(address: nat, chain: Option<ChainId>) | CommunityKey(address: nat, community: Option<CommunityId>)

  predicate InGroup(r: Role, key: Key)
  {
    match key
    case ChainKey(address, chain) => r.address == address && r.chain == chain && r.community.None?
    case CommunityKey(address, community) => r.address == address && r.community == community && r.chain.None?
  }

  function Members(roles: Roles, key: Key): set<nat>
  {
    set id | id in roles && InGroup(roles[id], key)
  }

  predicate IsDuplicated(roles: Roles, key: Key)
  {
    |Members(roles, key)| > 1
  }

  function Permissions(roles: Roles, key: Key): set<Permission>
  {
    set id | id in roles && InGroup(roles[id], key) :: roles[id].permission
  }

  function Highest(permissions: set<Permission>): Permission
  {
    if Admin in permissions then Admin else if Moderator in permissions then Moderator else Member
  }

  function ChainKeyOf(r: Role): Key
  {
    ChainKey(r.address, r.chain)
  }

  function CommunityKeyOf(r: Role): Key
  {
    CommunityKey(r.address, r.community)
  }

  /** The keys of one query that more than one row shares. */
  function DuplicateKeys(roles: Roles, ofChains: bool): set<Key>
  {
    if ofChains then
      set id | id in roles && roles[id].community.None? && IsDuplicated(roles, ChainKeyOf(roles[id])) :: ChainKeyOf(roles[id])
    else
      set id | id in roles && roles[id].chain.None? && IsDuplicated(roles, CommunityKeyOf(roles[id])) :: CommunityKeyOf(roles[id])
  }

  function AllDuplicateKeys(roles: Roles): set<Key>
  {
    DuplicateKeys(roles, true) + DuplicateKeys(roles, false)
  }

  function DuplicateIds(roles: Roles): set<nat>
  {
    set key, id | key in AllDuplicateKeys(roles) && id in Members(roles, key) :: id
  }

  /** One row of a query result. */
  datatype GroupRow = GroupRow(key: Key, permissions: set<Permission>, ids: set<nat>)

  function GroupOf(roles: Roles, key: Key): GroupRow
  {
    GroupRow(key, Permissions(roles, key), Members(roles, key))
  }

  /** Turns a query row into the role to insert. */
  function ProcessQueryFields(fields: GroupRow): Role
  {
    var permission := Highest(fields.permissions);
    match fields.key
    case ChainKey(address, chain) => Role(address, chain, None, permission)
    case CommunityKey(address, community) => Role(address, None, community, permission)
  }

  /** The role that stands for a duplicated key. */
  function MergedRole(roles: Roles, key: Key): Role
  {
    ProcessQueryFields(GroupOf(roles, key))
  }

  // ----- what the migration leaves

  function NewIds(firstId: nat, n: nat): (ids: set<nat>)
    ensures forall id :: id in ids <==> firstId <= id < firstId + n
  {
    if n == 0 then {} else NewIds(firstId, n - 1) + {firstId + n - 1}
  }

  function Survivors(roles: Roles): set<nat>
  {
    roles.Keys - DuplicateIds(roles)
  }

  predicate NoRepeats(keys: seq<Key>)
  {
    forall i, j :: 0 <= i < j < |keys| ==> keys[i] != keys[j]
  }

  /**
   The duplicates are gone; the new rows, from `firstId` on, stand for the duplicated keys,
   one each, in the order `keys`; every other row is as before.
   */
  ghost predicate IsMigrated(before: Roles, after: Roles, firstId: nat, keys: seq<Key>)
  {
    && (forall id :: id in before ==> id < firstId)
    && NoRepeats(keys) && (forall key :: key in keys <==> key in AllDuplicateKeys(before))
    && after.Keys == Survivors(before) + NewIds(firstId, |keys|)
    && (forall id :: id in Survivors(before) ==> after[id] == before[id])
    && (forall i :: 0 <= i < |keys| ==> after[firstId + i] == MergedRole(before, keys[i]))
  }

  function KeysOf(groups: seq<GroupRow>): seq<Key>
  {
    seq(|groups|, i requires 0 <= i < |groups| => groups[i].key)
  }

  /** A query result: every duplicated key once, in some order, with its permissions and ids. */
  ghost predicate IsQueryResult(roles: Roles, ofChains: bool, groups: seq<GroupRow>)
  {
    && NoRepeats(KeysOf(groups))
    && (forall key :: key in KeysOf(groups) <==> key in DuplicateKeys(roles, ofChains))
    && (forall i :: 0 <= i < |groups| ==> groups[i] == GroupOf(roles, groups[i].key))
  }

  function MapRows(groups: seq<GroupRow>): seq<Role>
  {
    seq(|groups|, i requires 0 <= i < |groups| => ProcessQueryFields(groups[i]))
  }

  function Ids(groups: seq<GroupRow>): set<nat>
  {
    set i, id | 0 <= i < |groups| && id in groups[i].ids :: id
  }

  class RoleTable {
    var roles: Roles
    var nextId: nat

    predicate Valid()
      reads this
    {
      forall id :: id in roles ==> id < nextId
    }

    constructor (roles: Roles, nextId: nat)
      requires forall id :: id in roles ==> id < nextId
      ensures Valid() && this.roles == roles && this.nextId == nextId
    {
      this.roles, this.nextId := roles, nextId;
    }

    /** The grouping query; the order of its rows is unspecified. */
    method Query(ofChains: bool) returns (groups: seq<GroupRow>)
      ensures IsQueryResult(roles, ofChains, groups)
    {
      hide DuplicateKeys, GroupOf;
      groups := [];
      var keys := DuplicateKeys(roles, ofChains);
      var pending := keys;
      while pending != {}
        invariant pending <= keys
        invariant forall key :: key in KeysOf(groups) <==> key in keys - pending
        invariant forall i :: 0 <= i < |groups| ==> groups[i] == GroupOf(roles, groups[i].key)
        invariant NoRepeats(KeysOf(groups))
        decreases |pending|
      {
        var key :| key in pending;
        GroupOfKey(roles, key);
        assert KeysOf(groups + [GroupOf(roles, key)]) == KeysOf(groups) + [key];
        NoRepeatsSnoc(KeysOf(groups), key);
        groups := groups + [GroupOf(roles, key)];
        pending := pending - {key};
      }
    }

    method BulkDelete(ids: set<nat>)
      requires Valid()
      modifies this`roles
      ensures Valid() && roles == old(roles) - ids
    {
      roles := roles - ids;
    }

    method DeleteBoth(chainRoleIds: set<nat>, communityRoleIds: set<nat>)
      requires Valid()
      modifies this`roles
      ensures Valid() && roles == old(roles) - (chainRoleIds + communityRoleIds)
    {
      if |chainRoleIds| > 0 {
        BulkDelete(chainRoleIds);
      }
      if |communityRoleIds| > 0 {
        BulkDelete(communityRoleIds);
      }
    }

    /** Inserts rows under new ids. */
    method BulkInsert(rows: seq<Role>)
      requires Valid()
      modifies this
      ensures Valid() && nextId == old(nextId) + |rows|
      ensures roles.Keys == old(roles.Keys) + NewIds(old(nextId), |rows|)
      ensures forall id :: id in old(roles) ==> roles[id] == old(roles)[id]
      ensures forall i :: 0 <= i < |rows| ==> roles[old(nextId) + i] == rows[i]
    {
      for n := 0 to |rows|
        invariant nextId == old(nextId) + n && Valid()
        invariant roles.Keys == old(roles.Keys) + NewIds(old(nextId), n)
        invariant forall id :: id in old(roles) ==> roles[id] == old(roles)[id]
        invariant forall i :: 0 <= i < n ==> roles[old(nextId) + i] == rows[i]
      {
        roles := roles[nextId := rows[n]];
        nextId := nextId + 1;
      }
    }

    method Up() returns (ghost keys: seq<Key>)
      requires Valid()
      modifies this
      ensures Valid() && IsMigrated(old(roles), roles, old(nextId), keys)
    {
      hide DuplicateKeys, ProcessQueryFields, DuplicateIds, IsQueryResult, Ids, IsMigrated, MapRows, KeysOf, NewIds;
      ghost var before, firstId := roles, nextId;
      var duplicateChainRoles := Query(true);
      var duplicateCommunityRoles := Query(false);
      var chainRoleIdsToDelete := Ids(duplicateChainRoles);
      var communityRoleIdsToDelete := Ids(duplicateCommunityRoles);
      DeleteBoth(chainRoleIdsToDelete, communityRoleIdsToDelete);
      var newRows := MapRows(duplicateChainRoles);
      var moreRows := MapRows(duplicateCommunityRoles);
      BulkInsert(newRows);
      BulkInsert(moreRows);
      keys := KeysOf(duplicateChainRoles) + KeysOf(duplicateCommunityRoles);
      InsertedIsMigrated(before, roles, firstId, duplicateChainRoles, duplicateCommunityRoles);
    }
  }

  lemma NoRepeatsSnoc(keys: seq<Key>, key: Key)
    requires NoRepeats(keys) && key !in keys
    ensures NoRepeats(keys + [key])
  {
  }

  lemma NoRepeatsConcat(a: seq<Key>, b: seq<Key>)
    requires NoRepeats(a) && NoRepeats(b)
    requires forall key :: key in a ==> key !in b
    ensures NoRepeats(a + b)
  {
    var keys := a + b;
    forall i, j | 0 <= i < j < |keys| ensures keys[i] != keys[j] {
      assert i < |a| ==> keys[i] == a[i] && a[i] in a;
      assert j >= |a| ==> keys[j] == b[j - |a|] && b[j - |a|] in b;
    }
  }

  lemma GroupOfKey(roles: Roles, key: Key)
    ensures GroupOf(roles, key).key == key
  {
  }

  lemma AllKeys(roles: Roles)
    ensures AllDuplicateKeys(roles) == DuplicateKeys(roles, true) + DuplicateKeys(roles, false)
  {
  }

  lemma KeyKinds(roles: Roles)
    ensures forall key :: key in DuplicateKeys(roles, true) ==> key.ChainKey?
    ensures forall key :: key in DuplicateKeys(roles, false) ==> key.CommunityKey?
  {
  }

  lemma IdsOfResult(roles: Roles, ofChains: bool, groups: seq<GroupRow>, id: nat)
    requires IsQueryResult(roles, ofChains, groups)
    ensures id in Ids(groups) <==> exists key :: key in DuplicateKeys(roles, ofChains) && id in Members(roles, key)
  {
    hide DuplicateKeys, Members, Permissions;
    if id in Ids(groups) {
      var i :| 0 <= i < |groups| && id in groups[i].ids;
      assert KeysOf(groups)[i] in KeysOf(groups);
    }
    if key :| key in DuplicateKeys(roles, ofChains) && id in Members(roles, key) {
      assert key in KeysOf(groups);
      var i :| 0 <= i < |groups| && KeysOf(groups)[i] == key;
      assert id in groups[i].ids;
    }
  }

  lemma IdsAreDuplicateIds(roles: Roles, chains: seq<GroupRow>, communities: seq<GroupRow>)
    requires IsQueryResult(roles, true, chains) && IsQueryResult(roles, false, communities)
    ensures Ids(chains) + Ids(communities) == DuplicateIds(roles)
  {
    hide DuplicateKeys, Members, Ids, IsQueryResult;
    forall id ensures id in Ids(chains) + Ids(communities) <==> id in DuplicateIds(roles) {
      IdsOfResult(roles, true, chains, id);
      IdsOfResult(roles, false, communities, id);
    }
  }

  lemma InsertedIsMigrated(before: Roles, after: Roles, firstId: nat, chains: seq<GroupRow>, communities: seq<GroupRow>)
    requires IsQueryResult(before, true, chains) && IsQueryResult(before, false, communities)
    requires forall id :: id in before ==> id < firstId
    requires var n, m := |MapRows(chains)|, |MapRows(communities)|;
      && after.Keys == before.Keys - (Ids(chains) + Ids(communities)) + NewIds(firstId, n) + NewIds(firstId + n, m)
      && (forall id :: id in before && id !in Ids(chains) + Ids(communities) ==> after[id] == before[id])
      && (forall i :: 0 <= i < n ==> after[firstId + i] == MapRows(chains)[i])
      && (forall i :: 0 <= i < m ==> after[firstId + n + i] == MapRows(communities)[i])
    ensures IsMigrated(before, after, firstId, KeysOf(chains) + KeysOf(communities))
  {
    hide DuplicateIds, GroupOf, Ids, ProcessQueryFields, NewIds;
    IdsAreDuplicateIds(before, chains, communities);
    KeyKinds(before);
    hide DuplicateKeys;
    var n, m := |chains|, |communities|;
    var keys := KeysOf(chains) + KeysOf(communities);
    NoRepeatsConcat(KeysOf(chains), KeysOf(communities));
    hide NoRepeats, AllDuplicateKeys;
    assert forall key :: key in AllDuplicateKeys(before) <==> key in DuplicateKeys(before, true) || key in DuplicateKeys(before, false) by {
      AllKeys(before);
    }
    assert NewIds(firstId, n + m) == NewIds(firstId, n) + NewIds(firstId + n, m);
    forall i | 0 <= i < n + m ensures after[firstId + i] == MergedRole(before, keys[i]) {
      if i < n {
        assert keys[i] == chains[i].key && MapRows(chains)[i] == ProcessQueryFields(chains[i]);
      } else {
        assert keys[i] == communities[i - n].key && MapRows(communities)[i - n] == ProcessQueryFields(communities[i - n]);
        assert after[firstId + n + (i - n)] == MapRows(communities)[i - n];
      }
    }
  }

  // ----- duplicated keys

  lemma SetOfTwo(s: set<nat>, i: nat, j: nat)
    requires i in s && j in s && i != j
    ensures |s| > 1
  {
    assert s == {i, j} + (s - {i, j});
  }

  /** A row shares its group with another row exactly when the key is duplicated. */
  lemma SharedKeyIsDuplicated(roles: Roles, key: Key, i: nat, j: nat)
    requires i in roles && j in roles && i != j && InGroup(roles[i], key) && InGroup(roles[j], key)
    ensures key in AllDuplicateKeys(roles)
    ensures i in DuplicateIds(roles) && j in DuplicateIds(roles)
  {
    SetOfTwo(Members(roles, key), i, j);
    assert key == if key.ChainKey? then ChainKeyOf(roles[i]) else CommunityKeyOf(roles[i]);
    assert key in DuplicateKeys(roles, key.ChainKey?);
  }

  lemma DuplicatedKeyHasTwo(roles: Roles, key: Key) returns (i: nat, j: nat)
    requires key in AllDuplicateKeys(roles)
    ensures i in roles && j in roles && i != j && InGroup(roles[i], key) && InGroup(roles[j], key)
  {
    var s := Members(roles, key);
    i :| i in s;
    assert |s - {i}| > 0;
    j :| j in s - {i};
  }

  /** A row is deleted exactly when another row is in one of its groups. */
  lemma DeletedRowHasKey(roles: Roles, id: nat) returns (key: Key, other: nat)
    requires id in DuplicateIds(roles)
    ensures key in AllDuplicateKeys(roles) && id in roles && InGroup(roles[id], key)
    ensures other in roles && other != id && InGroup(roles[other], key)
  {
    key :| key in AllDuplicateKeys(roles) && id in Members(roles, key);
    var i, j := DuplicatedKeyHasTwo(roles, key);
    other := if i == id then j else i;
  }

  /** Every row after the migration is an untouched row or stands for a key. */
  lemma RowAfter(before: Roles, after: Roles, firstId: nat, keys: seq<Key>, n: nat) returns (i: Option<nat>)
    requires IsMigrated(before, after, firstId, keys) && n in after
    ensures i.None? ==> n in Survivors(before) && after[n] == before[n]
    ensures i.Some? ==> i.value < |keys| && n == firstId + i.value && after[n] == MergedRole(before, keys[i.value])
                        && keys[i.value] in AllDuplicateKeys(before)
  {
    hide Survivors, MergedRole, AllDuplicateKeys;
    if n in Survivors(before) {
      i := None;
    } else {
      i := Some(n - firstId);
      assert keys[n - firstId] in keys;
    }
  }

  /** Where to find the row that stands for a key. */
  lemma RowForKey(before: Roles, after: Roles, firstId: nat, keys: seq<Key>, key: Key) returns (n: nat)
    requires IsMigrated(before, after, firstId, keys) && key in AllDuplicateKeys(before)
    ensures n in after && n !in before && after[n] == MergedRole(before, key)
  {
    hide Survivors, MergedRole, AllDuplicateKeys;
    var i :| 0 <= i < |keys| && keys[i] == key;
    n := firstId + i;
    assert n in NewIds(firstId, |keys|);
  }

  // ----- permissions

  /** Where a role applies. */
  function PlaceOf(r: Role): (nat, Option<ChainId>, Option<CommunityId>)
  {
    (r.address, r.chain, r.community)
  }

  lemma MergedIsHighest(roles: Roles, key: Key, id: nat)
    requires id in roles && InGroup(roles[id], key)
    ensures MergedRole(roles, key).permission.Rank() >= roles[id].permission.Rank()
    ensures PlaceOf(MergedRole(roles, key)) == PlaceOf(roles[id])
  {
  }

  lemma MergedIsAttained(roles: Roles, key: Key) returns (id: nat)
    requires key in AllDuplicateKeys(roles)
    ensures id in roles && InGroup(roles[id], key)
    ensures roles[id].permission == MergedRole(roles, key).permission
  {
    var i, _ := DuplicatedKeyHasTwo(roles, key);
    hide AllDuplicateKeys;
    var permissions := Permissions(roles, key);
    assert roles[i].permission in permissions;
    assert Highest(permissions) in permissions by {
      if Admin !in permissions && Moderator !in permissions {
        assert roles[i].permission == Member;
      }
    }
    id :| id in roles && InGroup(roles[id], key) && roles[id].permission == Highest(permissions);
  }

  /** Some row in the same place has at least the permission. */
  ghost predicate Covers(roles: Roles, r: Role)
  {
    exists n :: n in roles && PlaceOf(roles[n]) == PlaceOf(r) && roles[n].permission.Rank() >= r.permission.Rank()
  }

  /** Some row in the same place has exactly the permission. */
  ghost predicate Grants(roles: Roles, r: Role)
  {
    exists n :: n in roles && PlaceOf(roles[n]) == PlaceOf(r) && roles[n].permission == r.permission
  }

  /** For every old role there is a new one in the same place with at least its permission. */
  lemma NobodyLoses(before: Roles, after: Roles, firstId: nat, keys: seq<Key>, id: nat)
    requires IsMigrated(before, after, firstId, keys) && id in before
    ensures Covers(after, before[id])
  {
    hide IsMigrated, MergedRole, InGroup;
    if id in DuplicateIds(before) {
      var key, _ := DeletedRowHasKey(before, id);
      var n := RowForKey(before, after, firstId, keys, key);
      MergedIsHighest(before, key, id);
      assert PlaceOf(after[n]) == PlaceOf(before[id]);
    } else {
      SurvivorStays(before, after, firstId, keys, id);
      assert PlaceOf(after[id]) == PlaceOf(before[id]);
    }
  }

  lemma SurvivorStays(before: Roles, after: Roles, firstId: nat, keys: seq<Key>, id: nat)
    requires IsMigrated(before, after, firstId, keys) && id in before && id !in DuplicateIds(before)
    ensures id in after && after[id] == before[id]
  {
  }

  /** Every new role is in the place of an old one and has exactly the permission of one. */
  lemma NobodyGains(before: Roles, after: Roles, firstId: nat, keys: seq<Key>, n: nat)
    requires IsMigrated(before, after, firstId, keys) && n in after
    ensures Grants(before, after[n])
  {
    hide IsMigrated, MergedRole, InGroup, AllDuplicateKeys;
    var i := RowAfter(before, after, firstId, keys, n);
    if i.Some? {
      var id := MergedIsAttained(before, keys[i.value]);
      MergedIsHighest(before, keys[i.value], id);
      assert PlaceOf(before[id]) == PlaceOf(after[n]);
    } else {
      assert PlaceOf(before[n]) == PlaceOf(after[n]);
    }
  }

  /** A role without a duplicate keeps its row. */
  lemma UnduplicatedUntouched(before: Roles, after: Roles, firstId: nat, keys: seq<Key>, id: nat)
    requires IsMigrated(before, after, firstId, keys) && id in before
    requires forall j :: j in before && j != id ==> PlaceOf(before[j]) != PlaceOf(before[id])
    ensures id in after && after[id] == before[id]
  {
    if id in DuplicateIds(before) {
      var key, other := DeletedRowHasKey(before, id);
      SamePlace(before[id], before[other], key);
      assert false;
    }
    SurvivorStays(before, after, firstId, keys, id);
  }

  lemma SamePlace(r: Role, r': Role, key: Key)
    requires InGroup(r, key) && InGroup(r', key)
    ensures PlaceOf(r) == PlaceOf(r')
  {
  }

  // ----- the new indexes

  ghost predicate SameChain(r: Role, r': Role)
  {
    r.address == r'.address && r.chain == r'.chain && r.chain.Some?
  }

  ghost predicate SameCommunity(r: Role, r': Role)
  {
    r.address == r'.address && r.community == r'.community && r.community.Some?
  }

  /** The two uniqueness constraints; as in any SQL index, rows without value do not count. */
  ghost predicate IsIndexable(roles: Roles)
  {
    forall i, j :: i in roles && j in roles && i != j ==> !SameChain(roles[i], roles[j]) && !SameCommunity(roles[i], roles[j])
  }

  /** No row that has both a chain and a community shares either with another row. */
  ghost predicate NoMixedClash(roles: Roles)
  {
    forall i, j :: i in roles && j in roles && i != j && (SameChain(roles[i], roles[j]) || SameCommunity(roles[i], roles[j])) ==>
      !IsMixed(roles[i])
  }

  predicate IsMixed(r: Role)
  {
    r.chain.Some? && r.community.Some?
  }

  /** Two rows in one place of one kind are duplicates of each other. */
  lemma PlainPairIsDuplicated(roles: Roles, i: nat, j: nat)
    requires i in roles && j in roles && i != j
    requires SameChain(roles[i], roles[j]) || SameCommunity(roles[i], roles[j])
    requires !IsMixed(roles[i]) && !IsMixed(roles[j])
    ensures i in DuplicateIds(roles) && j in DuplicateIds(roles)
  {
    hide DuplicateIds, AllDuplicateKeys;
    var key := if roles[i].chain.Some? then ChainKeyOf(roles[i]) else CommunityKeyOf(roles[i]);
    SharedKeyIsDuplicated(roles, key, i, j);
  }

  lemma MixedSurvives(roles: Roles, id: nat)
    requires id in roles && IsMixed(roles[id])
    ensures id !in DuplicateIds(roles)
  {
  }

  /** A merged role clashes with an untouched one only if that is a mixed row. */
  lemma MergedAgainstSurvivor(roles: Roles, key: Key, id: nat)
    requires key in AllDuplicateKeys(roles) && id in Survivors(roles) && NoMixedClash(roles)
    ensures !SameChain(MergedRole(roles, key), roles[id]) && !SameCommunity(MergedRole(roles, key), roles[id])
  {
    hide AllDuplicateKeys, DuplicateIds, MergedRole;
    var i, j := DuplicatedKeyHasTwo(roles, key);
    MergedIsHighest(roles, key, i);
    var other := if i == id then j else i;
    MergedIsHighest(roles, key, other);
    if SameChain(roles[other], roles[id]) || SameCommunity(roles[other], roles[id]) {
      PlainPairIsDuplicated(roles, other, id);
      assert false;
    }
  }

  lemma MergedAgainstMerged(roles: Roles, key: Key, key': Key)
    requires key in AllDuplicateKeys(roles) && key' in AllDuplicateKeys(roles) && key != key'
    ensures !SameChain(MergedRole(roles, key), MergedRole(roles, key'))
    ensures !SameCommunity(MergedRole(roles, key), MergedRole(roles, key'))
  {
  }

  lemma MigrationIsIndexable(before: Roles, after: Roles, firstId: nat, keys: seq<Key>)
    requires IsMigrated(before, after, firstId, keys) && NoMixedClash(before)
    ensures IsIndexable(after)
  {
    hide AllDuplicateKeys, MergedRole, DuplicateIds;
    forall n, m | n in after && m in after && n != m
      ensures !SameChain(after[n], after[m]) && !SameCommunity(after[n], after[m])
    {
      var i := RowAfter(before, after, firstId, keys, n);
      var j := RowAfter(before, after, firstId, keys, m);
      if i.Some? && j.Some? {
        MergedAgainstMerged(before, keys[i.value], keys[j.value]);
      } else if i.Some? {
        MergedAgainstSurvivor(before, keys[i.value], m);
      } else if j.Some? {
        MergedAgainstSurvivor(before, keys[j.value], n);
      } else if SameChain(before[n], before[m]) || SameCommunity(before[n], before[m]) {
        PlainPairIsDuplicated(before, n, m);
        assert false;
      }
    }
  }

  lemma MixedClashRemains(before: Roles, after: Roles, firstId: nat, keys: seq<Key>, i: nat, j: nat)
    requires IsMigrated(before, after, firstId, keys) && i in before && j in before && i != j
    requires SameChain(before[i], before[j]) || SameCommunity(before[i], before[j])
    requires IsMixed(before[i])
    ensures !IsIndexable(after)
  {
    hide IsMigrated, DuplicateIds, MergedRole, AllDuplicateKeys;
    MixedSurvives(before, i);
    SurvivorStays(before, after, firstId, keys, i);
    var n: nat;
    if j in DuplicateIds(before) {
      var key, _ := DeletedRowHasKey(before, j);
      n := RowForKey(before, after, firstId, keys, key);
      MergedIsHighest(before, key, j);
    } else {
      SurvivorStays(before, after, firstId, keys, j);
      n := j;
    }
    assert n in after && n != i && PlaceOf(after[n]) == PlaceOf(before[j]);
    assert SameChain(after[i], after[n]) || SameCommunity(after[i], after[n]);
  }

  /**
   The uniqueness constraints can be added after the migration exactly when no row with both
   a chain and a community shared either of them with another row.
   */
  lemma IndexableIffNoMixedClash(before: Roles, after: Roles, firstId: nat, keys: seq<Key>)
    requires IsMigrated(before, after, firstId, keys)
    ensures IsIndexable(after) <==> NoMixedClash(before)
  {
    hide IsMigrated, IsIndexable, IsMixed, SameChain, SameCommunity;
    if NoMixedClash(before) {
      MigrationIsIndexable(before, after, firstId, keys);
    } else {
      var i, j :| i in before && j in before && i != j
                  && (SameChain(before[i], before[j]) || SameCommunity(before[i], before[j])) && IsMixed(before[i]);
      MixedClashRemains(before, after, firstId, keys, i, j);
    }
  }

  /** One role in both a chain and a community beside a role in the chain: the first index cannot be added. */
  lemma MixedRowBlocksIndex(after: Roles, firstId: nat, keys: seq<Key>, chain: ChainId, community: CommunityId)
    requires IsMigrated(map[0 := Role(7, Some(chain), Some(community), Admin), 1 := Role(7, Some(chain), None, Member)],
                        after, firstId, keys)
    ensures !IsIndexable(after)
  {
    var mixed, plain := Role(7, Some(chain), Some(community), Admin), Role(7, Some(chain), None, Member);
    assert IsMixed(mixed) && SameChain(mixed, plain);
    hide IsMigrated, IsIndexable, IsMixed, SameChain;
    var before := map[0 := mixed, 1 := plain];
    assert before[0] == mixed && before[1] == plain;
    MixedClashRemains(before, after, firstId, keys, 0, 1);
  }

  /** In particular, roles that each have exactly one of the two leave at most one role per place. */
  lemma ExactlyOneIsIndexable(before: Roles, after: Roles, firstId: nat, keys: seq<Key>)
    requires IsMigrated(before, after, firstId, keys)
    requires forall id :: id in before ==> (before[id].chain.Some? <==> before[id].community.None?)
    ensures IsIndexable(after)
    ensures forall n, m :: n in after && m in after && n != m ==> PlaceOf(after[n]) != PlaceOf(after[m])
  {
    hide IsMigrated;
    IndexableIffNoMixedClash(before, after, firstId, keys);
    forall n | n in after ensures after[n].chain.Some? <==> after[n].community.None? {
      NobodyGains(before, after, firstId, keys, n);
    }
  }

  /** Spelled out: every role survives in its place; an admin stays one, a moderator is one or an admin. */
  lemma PermissionsSurvive(before: Roles, after: Roles, firstId: nat, keys: seq<Key>, id: nat) returns (n: nat)
    requires IsMigrated(before, after, firstId, keys) && id in before
    ensures n in after && after[n].address == before[id].address
    ensures after[n].chain == before[id].chain && after[n].community == before[id].community
    ensures before[id].permission == Admin ==> after[n].permission == Admin
    ensures before[id].permission == Moderator ==> after[n].permission in {Moderator, Admin}
  {
    hide IsMigrated;
    NobodyLoses(before, after, firstId, keys, id);
    n :| n in after && PlaceOf(after[n]) == PlaceOf(before[id]) && after[n].permission.Rank() >= before[id].permission.Rank();
  }

  /** And every new role has address, chain, community and permission of an old one. */
  lemma PermissionsWereHeld(before: Roles, after: Roles, firstId: nat, keys: seq<Key>, n: nat) returns (id: nat)
    requires IsMigrated(before, after, firstId, keys) && n in after
    ensures id in before && after[n] == before[id]
  {
    hide IsMigrated;
    NobodyGains(before, after, firstId, keys, n);
    id :| id in before && PlaceOf(before[id]) == PlaceOf(after[n]) && before[id].permission == after[n].permission;
  }
}
