/**
 The guilds, members and roles of the state cache (state.go): maps of objects that must agree with the lists they index
 while cached objects are overwritten in place. Identifiers are constant, so overwriting an object is only allowed with
 one of the same identifier; the methods show that this is all they ever do.
 */
module StateCache {
  import opened Base
  import opened Indexes

  class Member {
    const userID: string
    var guildID: string
    var joinedAt: int
    var profile: string

    constructor (userID: string, guildID: string, joinedAt: int, profile: string)
      ensures this.userID == userID && this.guildID == guildID && this.joinedAt == joinedAt && this.profile == profile
    {
      this.userID, this.guildID, this.joinedAt, this.profile := userID, guildID, joinedAt, profile;
    }

    /** *m = *member */
    method Overwrite(member: Member)
      requires member.userID == userID
      modifies this
      ensures guildID == old(member.guildID) && joinedAt == old(member.joinedAt) && profile == old(member.profile)
    {
      guildID, joinedAt, profile := member.guildID, member.joinedAt, member.profile;
    }
  }

  class Role {
    const id: string
    var settings: string

    constructor (id: string, settings: string)
      ensures this.id == id && this.settings == settings
    {
      this.id, this.settings := id, settings;
    }

    /** *r = *role */
    method Overwrite(role: Role)
      requires role.id == id
      modifies this
      ensures settings == old(role.settings)
    {
      settings := role.settings;
    }
  }

  /** A guild; a list that an update leaves out is None. */
  class Guild {
    const id: string
    var memberCount: int
    var members: Option<seq<Member>>
    var roles: Option<seq<Role>>
    var rest: Option<string>

    constructor (id: string, memberCount: int, members: Option<seq<Member>>, roles: Option<seq<Role>>, rest: Option<string>)
      ensures this.id == id && this.memberCount == memberCount && this.members == members && this.roles == roles
      ensures this.rest == rest
    {
      this.id, this.memberCount, this.members, this.roles, this.rest := id, memberCount, members, roles, rest;
    }

    /** What the update does not give is kept from the cached guild. */
    method FillFrom(g: Guild)
      modifies this
      ensures memberCount == if old(memberCount) == 0 then old(g.memberCount) else old(memberCount)
      ensures members == if old(members).None? then old(g.members) else old(members)
      ensures roles == if old(roles).None? then old(g.roles) else old(roles)
      ensures rest == if old(rest).None? then old(g.rest) else old(rest)
    {
      if memberCount == 0 {
        memberCount := g.memberCount;
      }
      if roles.None? {
        roles := g.roles;
      }
      if members.None? {
        members := g.members;
      }
      if rest.None? {
        rest := g.rest;
      }
    }

    /** *g = *guild */
    method Overwrite(guild: Guild)
      requires guild.id == id
      modifies this
      ensures memberCount == old(guild.memberCount) && rest == old(guild.rest)
      ensures members == old(guild.members) && roles == old(guild.roles)
    {
      memberCount, members, roles, rest := guild.memberCount, guild.members, guild.roles, guild.rest;
    }
  }

  function MemberIDs(s: seq<Member>): (r: seq<string>)
    ensures |r| == |s| && forall i | 0 <= i < |s| :: r[i] == s[i].userID
  {
    seq(|s|, i requires 0 <= i < |s| => s[i].userID)
  }

  function RoleIDs(s: seq<Role>): (r: seq<string>)
    ensures |r| == |s| && forall i | 0 <= i < |s| :: r[i] == s[i].id
  {
    seq(|s|, i requires 0 <= i < |s| => s[i].id)
  }

  function GuildIDs(s: seq<Guild>): (r: seq<string>)
    ensures |r| == |s| && forall i | 0 <= i < |s| :: r[i] == s[i].id
  {
    seq(|s|, i requires 0 <= i < |s| => s[i].id)
  }

  predicate MembersIndexed(s: seq<Member>, m: map<string, Member>) {
    Indexed(MemberIDs(s), s, m)
  }

  predicate RolesIndexed(s: seq<Role>, m: map<string, Role>) {
    Indexed(RoleIDs(s), s, m)
  }

  predicate GuildsIndexed(s: seq<Guild>, m: map<string, Guild>) {
    Indexed(GuildIDs(s), s, m)
  }

  /** A list that is left out counts as empty. */
  function Listed<T>(s: Option<seq<T>>): seq<T> {
    if s.None? then [] else s.value
  }

  /** The indexes of a guild's members and roles agree with its lists. */
  predicate Agrees(g: Guild, members: map<string, Member>, roles: map<string, Role>)
    reads g`members, g`roles
  {
    MembersIndexed(Listed(g.members), members) && RolesIndexed(Listed(g.roles), roles)
  }

  /** Every cached guild has its indexes, and they agree with it. */
  ghost predicate AllAgree(guilds: map<string, Guild>, members: map<string, map<string, Member>>,
                           roles: map<string, map<string, Role>>)
    reads guilds.Values`members, guilds.Values`roles
  {
    && members.Keys == guilds.Keys && roles.Keys == guilds.Keys
    && (forall k | k in guilds :: guilds[k].id == k)
    && forall k {:trigger Agrees(guilds[k], members[k], roles[k])} | k in guilds ::
         Agrees(guilds[k], members[k], roles[k])
  }

  lemma AllAgreeWithout(guilds: map<string, Guild>, members: map<string, map<string, Member>>,
                        roles: map<string, map<string, Role>>, key: string)
    requires AllAgree(guilds, members, roles)
    ensures AllAgree(guilds - {key}, members - {key}, roles - {key})
  {
    assert (members - {key}).Keys == (guilds - {key}).Keys == (roles - {key}).Keys;
    forall k | k in guilds - {key} ensures Agrees((guilds - {key})[k], (members - {key})[k], (roles - {key})[k]) {
      assert Agrees(guilds[k], members[k], roles[k]);
    }
  }

  lemma AllAgreeWith(guilds: map<string, Guild>, members: map<string, map<string, Member>>,
                     roles: map<string, map<string, Role>>, key: string)
    requires AllAgree(guilds - {key}, members - {key}, roles - {key})
    requires key in guilds && key in members && key in roles
    requires guilds[key].id == key && Agrees(guilds[key], members[key], roles[key])
    ensures AllAgree(guilds, members, roles)
  {
    assert guilds.Keys == (guilds - {key}).Keys + {key};
    assert members.Keys == (members - {key}).Keys + {key};
    assert roles.Keys == (roles - {key}).Keys + {key};
    forall k | k in guilds ensures guilds[k].id == k && Agrees(guilds[k], members[k], roles[k]) {
      if k != key {
        var kept := guilds - {key};
        assert k in kept && Agrees(kept[k], (members - {key})[k], (roles - {key})[k]);
      }
    }
  }

  lemma UpdateElsewhere<T>(m: map<string, T>, key: string, x: T)
    ensures m[key := x] - {key} == m - {key}
  {
  }

  /** Incoming lists name every member and role once. */
  predicate WellFormed(g: Guild)
    reads g`members, g`roles
  {
    Distinct(MemberIDs(Listed(g.members))) && Distinct(RoleIDs(Listed(g.roles)))
  }

  lemma MemberJoins(s: seq<Member>, m: map<string, Member>, x: Member)
    requires MembersIndexed(s, m) && x.userID !in m
    ensures MembersIndexed(s + [x], m[x.userID := x])
  {
    AppendKeeps(MemberIDs(s), s, m, x.userID, x);
    assert MemberIDs(s + [x]) == MemberIDs(s) + [x.userID];
  }

  lemma MemberLeaves(s: seq<Member>, m: map<string, Member>, i: nat)
    requires MembersIndexed(s, m) && i < |s|
    ensures MembersIndexed(s[..i] + s[i + 1..], m - {s[i].userID})
  {
    RemoveKeeps(MemberIDs(s), s, m, i);
    assert MemberIDs(s[..i] + s[i + 1..]) == MemberIDs(s)[..i] + MemberIDs(s)[i + 1..];
  }

  lemma RoleJoins(s: seq<Role>, m: map<string, Role>, x: Role)
    requires RolesIndexed(s, m) && x.id !in m
    ensures RolesIndexed(s + [x], m[x.id := x])
  {
    AppendKeeps(RoleIDs(s), s, m, x.id, x);
    assert RoleIDs(s + [x]) == RoleIDs(s) + [x.id];
  }

  lemma RoleLeaves(s: seq<Role>, m: map<string, Role>, i: nat)
    requires RolesIndexed(s, m) && i < |s|
    ensures RolesIndexed(s[..i] + s[i + 1..], m - {s[i].id})
  {
    RemoveKeeps(RoleIDs(s), s, m, i);
    assert RoleIDs(s[..i] + s[i + 1..]) == RoleIDs(s)[..i] + RoleIDs(s)[i + 1..];
  }

  lemma GuildJoins(s: seq<Guild>, m: map<string, Guild>, x: Guild)
    requires GuildsIndexed(s, m) && x.id !in m
    ensures GuildsIndexed(s + [x], m[x.id := x])
  {
    AppendKeeps(GuildIDs(s), s, m, x.id, x);
    assert GuildIDs(s + [x]) == GuildIDs(s) + [x.id];
  }

  lemma GuildLeaves(s: seq<Guild>, m: map<string, Guild>, i: nat)
    requires GuildsIndexed(s, m) && i < |s|
    ensures GuildsIndexed(s[..i] + s[i + 1..], m - {s[i].id})
  {
    RemoveKeeps(GuildIDs(s), s, m, i);
    assert GuildIDs(s[..i] + s[i + 1..]) == GuildIDs(s)[..i] + GuildIDs(s)[i + 1..];
  }

  datatype Error = NotFound

  class State {
    var guilds: seq<Guild>
    var guildMap: map<string, Guild>
    var memberMap: map<string, map<string, Member>>
    var roleMap: map<string, map<string, Role>>

    constructor ()
      ensures Valid() && guilds == []
    {
      guilds, guildMap, memberMap, roleMap := [], map[], map[], map[];
    }

    /** All maps have the guilds of the list as keys, and each guild's maps agree with its lists. */
    ghost predicate Valid()
      reads this, guildMap.Values`members, guildMap.Values`roles
    {
      && GuildsIndexed(guilds, guildMap)
      && AllAgree(guildMap, memberMap, roleMap)
    }

    /** The nested map that lookups read. */
    function LookupMember(guildID: string, userID: string): Option<Member>
      reads this
    {
      if guildID in memberMap && userID in memberMap[guildID] then Some(memberMap[guildID][userID]) else None
    }

    function LookupRole(guildID: string, roleID: string): Option<Role>
      reads this
    {
      if guildID in roleMap && roleID in roleMap[guildID] then Some(roleMap[guildID][roleID]) else None
    }

    method CreateMemberMap(list: seq<Member>) returns (members: map<string, Member>)
      ensures members == IndexOf(MemberIDs(list), list)
      ensures MembersIndexed(list, members) <==> Distinct(MemberIDs(list))
    {
      members := map[];
      for i := 0 to |list|
        invariant members == IndexOf(MemberIDs(list)[..i], list[..i])
      {
        assert list[..i + 1][..i] == list[..i] && MemberIDs(list)[..i + 1][..i] == MemberIDs(list)[..i];
        members := members[list[i].userID := list[i]];
      }
      assert list[..|list|] == list && MemberIDs(list)[..|list|] == MemberIDs(list);
      IndexAgreesIffDistinct(MemberIDs(list), list);
    }

    method CreateRoleMap(list: seq<Role>) returns (roles: map<string, Role>)
      ensures roles == IndexOf(RoleIDs(list), list)
      ensures RolesIndexed(list, roles) <==> Distinct(RoleIDs(list))
    {
      roles := map[];
      for i := 0 to |list|
        invariant roles == IndexOf(RoleIDs(list)[..i], list[..i])
      {
        assert list[..i + 1][..i] == list[..i] && RoleIDs(list)[..i + 1][..i] == RoleIDs(list)[..i];
        roles := roles[list[i].id := list[i]];
      }
      assert list[..|list|] == list && RoleIDs(list)[..|list|] == RoleIDs(list);
      IndexAgreesIffDistinct(RoleIDs(list), list);
    }

    /** A new list has a new index; without one the index of a known guild is kept. */
    function MembersAfter(guild: Guild): map<string, Member>
      reads this, guild
    {
      if guild.members.Some? then IndexOf(MemberIDs(guild.members.value), guild.members.value)
      else if guild.id in memberMap then memberMap[guild.id] else map[]
    }

    function RolesAfter(guild: Guild): map<string, Role>
      reads this, guild
    {
      if guild.roles.Some? then IndexOf(RoleIDs(guild.roles.value), guild.roles.value)
      else if guild.id in roleMap then roleMap[guild.id] else map[]
    }

    predicate IndexesFor(guild: Guild, members: map<string, Member>, roles: map<string, Role>)
      reads this, guild
    {
      members == MembersAfter(guild) && roles == RolesAfter(guild)
    }

    method IndexGuild(guild: Guild) returns (members: map<string, Member>, roles: map<string, Role>)
      ensures IndexesFor(guild, members, roles)
    {
      if guild.members != None {
        members := CreateMemberMap(guild.members.value);
      } else {
        members := if guild.id in memberMap then memberMap[guild.id] else map[];
      }
      if guild.roles != None {
        roles := CreateRoleMap(guild.roles.value);
      } else {
        roles := if guild.id in roleMap then roleMap[guild.id] else map[];
      }
    }

    /** The object that stands for the guild after GuildAdd: the cached one, if there is one. */
    function Cached(guild: Guild): Guild
      reads this
    {
      if guild.id in guildMap then guildMap[guild.id] else guild
    }

    /**
     GuildAdd: a known guild is overwritten in place, keeping what the update leaves out; a new one joins list and map.
     Members and roles of other guilds are found as before. Maps and lists agree afterwards exactly when the incoming
     lists name every member and role once.
     */
    method GuildAdd(guild: Guild)
      requires Valid()
      modifies this, guild, Cached(guild)
      ensures (Valid() <==> old(WellFormed(guild)))
      ensures guild.id in guildMap && guild.id in memberMap && guild.id in roleMap
      ensures guild.id in old(guildMap) ==> guildMap == old(guildMap) && guilds == old(guilds)
      ensures guild.id !in old(guildMap) ==> guildMap == old(guildMap)[guild.id := guild] && guilds == old(guilds) + [guild]
      ensures memberMap == old(memberMap)[guild.id := memberMap[guild.id]]
      ensures roleMap == old(roleMap)[guild.id := roleMap[guild.id]]
      ensures memberMap[guild.id] == old(MembersAfter(guild)) && roleMap[guild.id] == old(RolesAfter(guild))
      ensures Filled(guildMap[guild.id].members, old(guild.members), old(Cached(guild).members))
      ensures Filled(guildMap[guild.id].roles, old(guild.roles), old(Cached(guild).roles))
      ensures Filled(guildMap[guild.id].rest, old(guild.rest), old(Cached(guild).rest))
      ensures guildMap[guild.id].memberCount == CountAfter(old(guild.memberCount), old(Cached(guild).memberCount))
    {
      var members, roles := IndexGuild(guild);
      if guild.id in guildMap {
        UpdateKnown(guild, members, roles);
      } else {
        AddNew(guild, members, roles);
      }
    }

    /** New indexes agree with the lists that are then stored exactly when the incoming lists are well formed. */
    lemma ListsAgreeIffWellFormed(before: Option<seq<Member>>, before': Option<seq<Role>>, guild: Guild,
                                  members: map<string, Member>, roles: map<string, Role>)
      requires IndexesFor(guild, members, roles)
      requires guild.members.None? ==> MembersIndexed(Listed(before), members)
      requires guild.roles.None? ==> RolesIndexed(Listed(before'), roles)
      ensures MembersIndexed(Listed(if guild.members.None? then before else guild.members), members)
              && RolesIndexed(Listed(if guild.roles.None? then before' else guild.roles), roles)
              <==> WellFormed(guild)
    {
      if guild.members.Some? {
        IndexAgreesIffDistinct(MemberIDs(guild.members.value), guild.members.value);
      }
      if guild.roles.Some? {
        IndexAgreesIffDistinct(RoleIDs(guild.roles.value), guild.roles.value);
      }
    }

    method AddNew(guild: Guild, members: map<string, Member>, roles: map<string, Role>)
      requires Valid() && guild.id !in guildMap && IndexesFor(guild, members, roles)
      modifies this
      ensures Valid() <==> WellFormed(guild)
      ensures guilds == old(guilds) + [guild] && guildMap == old(guildMap)[guild.id := guild]
      ensures memberMap == old(memberMap)[guild.id := members] && roleMap == old(roleMap)[guild.id := roles]
    {
      AllAgreeWithout(guildMap, memberMap, roleMap, guild.id);
      GuildJoins(guilds, guildMap, guild);
      guilds := guilds + [guild];
      ListsAgreeIffWellFormed(None, None, guild, members, roles);
      Store(guild, members, roles);
    }

    method UpdateKnown(guild: Guild, members: map<string, Member>, roles: map<string, Role>)
      requires Valid() && guild.id in guildMap && IndexesFor(guild, members, roles)
      modifies this, guild, guildMap[guild.id]
      ensures Valid() <==> old(WellFormed(guild))
      ensures guilds == old(guilds) && guildMap == old(guildMap)
      ensures memberMap == old(memberMap)[guild.id := members] && roleMap == old(roleMap)[guild.id := roles]
      ensures Filled(guildMap[guild.id].members, old(guild.members), old(guildMap[guild.id].members))
      ensures Filled(guildMap[guild.id].roles, old(guild.roles), old(guildMap[guild.id].roles))
      ensures Filled(guildMap[guild.id].rest, old(guild.rest), old(guildMap[guild.id].rest))
      ensures guildMap[guild.id].memberCount == CountAfter(old(guild.memberCount), old(guildMap[guild.id].memberCount))
    {
      hide MembersIndexed, RolesIndexed, GuildsIndexed, IndexOf;
      var stored := guildMap[guild.id];
      assert Agrees(stored, memberMap[guild.id], roleMap[guild.id]);
      ListsAgreeIffWellFormed(stored.members, stored.roles, guild, members, roles);
      Merge(stored, guild);
      assert guildMap[guild.id := stored] == guildMap;
      Store(stored, members, roles);
    }

    /** The update goes into the cached guild, in place; no other cached guild changes. */
    method Merge(stored: Guild, guild: Guild)
      requires AllAgree(guildMap, memberMap, roleMap) && stored.id == guild.id
      modifies guild, stored
      ensures AllAgree(guildMap - {guild.id}, memberMap - {guild.id}, roleMap - {guild.id})
      ensures Filled(stored.members, old(guild.members), old(stored.members))
      ensures Filled(stored.roles, old(guild.roles), old(stored.roles))
      ensures Filled(stored.rest, old(guild.rest), old(stored.rest))
      ensures stored.memberCount == CountAfter(old(guild.memberCount), old(stored.memberCount))
    {
      AllAgreeWithout(guildMap, memberMap, roleMap, guild.id);
      var others := guildMap - {guild.id};
      assert forall k | k in others :: others[k].id != guild.id;
      assert guild !in others.Values && stored !in others.Values;
      guild.FillFrom(stored);
      stored.Overwrite(guild);
    }

    method Store(g: Guild, members: map<string, Member>, roles: map<string, Role>)
      requires AllAgree(guildMap - {g.id}, memberMap - {g.id}, roleMap - {g.id})
      modifies `guildMap, `memberMap, `roleMap
      ensures AllAgree(guildMap, memberMap, roleMap) <==> Agrees(g, members, roles)
      ensures guildMap == old(guildMap)[g.id := g]
      ensures memberMap == old(memberMap)[g.id := members] && roleMap == old(roleMap)[g.id := roles]
    {
      UpdateElsewhere(guildMap, g.id, g);
      UpdateElsewhere(memberMap, g.id, members);
      UpdateElsewhere(roleMap, g.id, roles);
      guildMap := guildMap[g.id := g];
      memberMap := memberMap[g.id := members];
      roleMap := roleMap[g.id := roles];
      if Agrees(g, members, roles) {
        AllAgreeWith(guildMap, memberMap, roleMap, g.id);
      } else {
        assert !Agrees(guildMap[g.id], memberMap[g.id], roleMap[g.id]);
      }
    }

    /** GuildRemove: the guild goes from the list and every map; the others stay as they are. */
    method GuildRemove(guildID: string) returns (r: Result<(), Error>)
      requires Valid()
      modifies this
      ensures Valid() && (r.Ok? <==> guildID in old(guildMap))
      ensures if r.Ok? then exists n :: RemovedAt(old(guilds), guilds, n) && old(guilds)[n].id == guildID
              else guilds == old(guilds)
      ensures guildMap == old(guildMap) - {guildID}
      ensures memberMap == old(memberMap) - {guildID} && roleMap == old(roleMap) - {guildID}
    {
      if guildID !in guildMap {
        return Err(NotFound);
      }
      var n := GuildIndex(guildID);
      GuildLeaves(guilds, guildMap, n);
      guilds := guilds[..n] + guilds[n + 1..];
      assert RemovedAt(old(guilds), guilds, n);
      Forget(guildID);
      return Ok(());
    }

    method Forget(guildID: string)
      requires AllAgree(guildMap, memberMap, roleMap)
      modifies `guildMap, `memberMap, `roleMap
      ensures AllAgree(guildMap, memberMap, roleMap)
      ensures guildMap == old(guildMap) - {guildID}
      ensures memberMap == old(memberMap) - {guildID} && roleMap == old(roleMap) - {guildID}
    {
      AllAgreeWithout(guildMap, memberMap, roleMap, guildID);
      guildMap := guildMap - {guildID};
      memberMap := memberMap - {guildID};
      roleMap := roleMap - {guildID};
    }

    method GuildIndex(guildID: string) returns (n: nat)
      requires GuildsIndexed(guilds, guildMap) && guildID in guildMap
      ensures n < |guilds| && guilds[n].id == guildID
    {
      n := 0;
      assert guildID in GuildIDs(guilds);
      while guilds[n].id != guildID
        invariant n < |guilds| && guildID in GuildIDs(guilds)[n..]
        decreases |guilds| - n
      {
        n := n + 1;
      }
    }

    // ---- Members -------------------------------------------------------------------------------

    /** The cached object for a member, if there is one. */
    function KnownMember(guildID: string, userID: string): set<Member>
      reads this
    {
      if LookupMember(guildID, userID).Some? then {LookupMember(guildID, userID).value} else {}
    }

    /** A new member list for a cached guild; no other cached guild changes. */
    method ListMembers(guild: Guild, list: seq<Member>)
      requires AllAgree(guildMap, memberMap, roleMap) && guild.id in guildMap && guildMap[guild.id] == guild
      modifies guild`members
      ensures AllAgree(guildMap - {guild.id}, memberMap - {guild.id}, roleMap - {guild.id})
      ensures guild.members == Some(list) && RolesIndexed(Listed(guild.roles), roleMap[guild.id])
    {
      AllAgreeWithout(guildMap, memberMap, roleMap, guild.id);
      assert Agrees(guild, memberMap[guild.id], roleMap[guild.id]);
      var others := guildMap - {guild.id};
      assert forall k | k in others :: others[k].id != guild.id;
      assert guild !in others.Values;
      guild.members := Some(list);
    }

    /** A guild's member list and index change together. */
    method SetMembers(guild: Guild, list: seq<Member>, members: map<string, Member>)
      requires Valid() && guild.id in guildMap && guildMap[guild.id] == guild && MembersIndexed(list, members)
      modifies `memberMap, guild`members
      ensures Valid() && memberMap == old(memberMap)[guild.id := members] && guild.members == Some(list)
    {
      ListMembers(guild, list);
      UpdateElsewhere(memberMap, guild.id, members);
      memberMap := memberMap[guild.id := members];
      AllAgreeWith(guildMap, memberMap, roleMap, guild.id);
    }

    /**
     memberAdd: a known member is overwritten in place, keeping the join time that the update leaves out; a new one
     joins list and index.
     */
    method MemberAdd(member: Member) returns (r: Result<(), Error>)
      requires Valid()
      modifies `memberMap, guildMap.Values`members, member`joinedAt, KnownMember(member.guildID, member.userID)
      ensures Valid()
      ensures r.Ok? <==> old(member.guildID) in guildMap
      ensures r.Err? ==> memberMap == old(memberMap) && old(LookupMember(member.guildID, member.userID)).None?
      ensures r.Err? || old(LookupMember(member.guildID, member.userID)).None? ==> member.joinedAt == old(member.joinedAt)
      ensures forall g | g in guildMap.Values && g.id != old(member.guildID) :: g.members == old(g.members)
      ensures r.Ok? && old(LookupMember(member.guildID, member.userID)).None? ==>
                var g := old(member.guildID);
                && Joined(old(memberMap), memberMap, g, member.userID, member)
                && g in guildMap && guildMap[g].members == Some(Listed(old(guildMap[g].members)) + [member])
      ensures r.Ok? && old(LookupMember(member.guildID, member.userID)).Some? ==>
                var m := old(LookupMember(member.guildID, member.userID)).value;
                && memberMap == old(memberMap) && m.guildID == old(member.guildID) && m.profile == old(member.profile)
                && m.joinedAt == if old(member.joinedAt) == 0 then old(m.joinedAt) else old(member.joinedAt)
    {
      hide MembersIndexed, RolesIndexed, GuildsIndexed;
      var key, id := member.guildID, member.userID;
      if key !in guildMap || key !in memberMap {
        return Err(NotFound);
      }
      var guild, members := guildMap[key], memberMap[key];
      assert Agrees(guild, members, roleMap[key]);
      if id !in members {
        MemberJoins(Listed(guild.members), members, member);
        SetMembers(guild, Listed(guild.members) + [member], members[id := member]);
      } else {
        var m := members[id];
        assert m.userID == id by {
          FoundMember(Listed(guild.members), members, id);
        }
        if member.joinedAt == 0 {
          member.joinedAt := m.joinedAt;
        }
        m.Overwrite(member);
      }
      return Ok(());
    }

    /** MemberRemove: exactly that member goes, from list and index. */
    method MemberRemove(guildID: string, userID: string) returns (r: Result<(), Error>)
      requires Valid()
      modifies `memberMap, guildMap.Values`members
      ensures Valid()
      ensures r.Ok? <==> old(LookupMember(guildID, userID)).Some?
      ensures r.Err? ==> memberMap == old(memberMap)
      ensures r.Ok? ==> Left(old(memberMap), memberMap, guildID, userID)
      ensures r.Ok? ==>
                && guildID in guildMap
                && var list := Listed(old(guildMap[guildID].members));
                   exists n :: RemovedAt(list, Listed(guildMap[guildID].members), n) && list[n].userID == userID
    {
      if guildID !in guildMap || guildID !in memberMap || userID !in memberMap[guildID] {
        return Err(NotFound);
      }
      var guild, members := guildMap[guildID], memberMap[guildID];
      assert Agrees(guild, members, roleMap[guildID]);
      var list := Listed(guild.members);
      var n := MemberIndex(list, members, userID);
      MemberLeaves(list, members, n);
      SetMembers(guild, list[..n] + list[n + 1..], members - {userID});
      assert RemovedAt(list, Listed(guild.members), n);
      return Ok(());
    }

    static method MemberIndex(list: seq<Member>, ghost members: map<string, Member>, userID: string) returns (n: nat)
      requires MembersIndexed(list, members) && userID in members
      ensures n < |list| && list[n].userID == userID
    {
      n := 0;
      assert userID in MemberIDs(list);
      while list[n].userID != userID
        invariant n < |list| && userID in MemberIDs(list)[n..]
        decreases |list| - n
      {
        n := n + 1;
      }
    }

    // ---- Roles ---------------------------------------------------------------------------------

    function KnownRole(guildID: string, roleID: string): set<Role>
      reads this
    {
      if LookupRole(guildID, roleID).Some? then {LookupRole(guildID, roleID).value} else {}
    }

    /** A new role list for a cached guild; no other cached guild changes. */
    method ListRoles(guild: Guild, list: seq<Role>)
      requires AllAgree(guildMap, memberMap, roleMap) && guild.id in guildMap && guildMap[guild.id] == guild
      modifies guild`roles
      ensures AllAgree(guildMap - {guild.id}, memberMap - {guild.id}, roleMap - {guild.id})
      ensures guild.roles == Some(list) && MembersIndexed(Listed(guild.members), memberMap[guild.id])
    {
      AllAgreeWithout(guildMap, memberMap, roleMap, guild.id);
      assert Agrees(guild, memberMap[guild.id], roleMap[guild.id]);
      var others := guildMap - {guild.id};
      assert forall k | k in others :: others[k].id != guild.id;
      assert guild !in others.Values;
      guild.roles := Some(list);
    }

    /** A guild's role list and index change together. */
    method SetRoles(guild: Guild, list: seq<Role>, roles: map<string, Role>)
      requires Valid() && guild.id in guildMap && guildMap[guild.id] == guild && RolesIndexed(list, roles)
      modifies `roleMap, guild`roles
      ensures Valid() && roleMap == old(roleMap)[guild.id := roles] && guild.roles == Some(list)
    {
      ListRoles(guild, list);
      UpdateElsewhere(roleMap, guild.id, roles);
      roleMap := roleMap[guild.id := roles];
      AllAgreeWith(guildMap, memberMap, roleMap, guild.id);
    }

    /** RoleAdd: a known role is overwritten in place; a new one joins list and index. */
    method RoleAdd(guildID: string, role: Role) returns (r: Result<(), Error>)
      requires Valid()
      modifies `roleMap, guildMap.Values`roles, KnownRole(guildID, role.id)
      ensures Valid()
      ensures r.Ok? <==> guildID in guildMap
      ensures r.Err? ==> roleMap == old(roleMap) && old(LookupRole(guildID, role.id)).None?
      ensures r.Ok? && old(LookupRole(guildID, role.id)).None? ==>
                && Joined(old(roleMap), roleMap, guildID, role.id, role)
                && guildID in guildMap && guildMap[guildID].roles == Some(Listed(old(guildMap[guildID].roles)) + [role])
      ensures r.Ok? && old(LookupRole(guildID, role.id)).Some? ==>
                roleMap == old(roleMap) && old(LookupRole(guildID, role.id)).value.settings == old(role.settings)
    {
      if guildID !in guildMap {
        return Err(NotFound);
      }
      var guild, roles := guildMap[guildID], roleMap[guildID];
      assert Agrees(guild, memberMap[guildID], roles);
      if role.id in roles {
        var known := roles[role.id];
        assert known.id == role.id by {
          FoundRole(Listed(guild.roles), roles, role.id);
        }
        known.Overwrite(role);
        return Ok(());
      }
      RoleJoins(Listed(guild.roles), roles, role);
      SetRoles(guild, Listed(guild.roles) + [role], roles[role.id := role]);
      return Ok(());
    }

    /** RoleRemove: exactly that role goes, from list and index. */
    method RoleRemove(guildID: string, roleID: string) returns (r: Result<(), Error>)
      requires Valid()
      modifies `roleMap, guildMap.Values`roles
      ensures Valid()
      ensures r.Ok? <==> old(LookupRole(guildID, roleID)).Some?
      ensures r.Err? ==> roleMap == old(roleMap)
      ensures r.Ok? ==> Left(old(roleMap), roleMap, guildID, roleID)
      ensures r.Ok? ==>
                && guildID in guildMap
                && var list := Listed(old(guildMap[guildID].roles));
                   exists n :: RemovedAt(list, Listed(guildMap[guildID].roles), n) && list[n].id == roleID
    {
      if guildID !in guildMap || guildID !in roleMap || roleID !in roleMap[guildID] {
        return Err(NotFound);
      }
      var guild, roles := guildMap[guildID], roleMap[guildID];
      assert Agrees(guild, memberMap[guildID], roles);
      var list := Listed(guild.roles);
      var n := RoleIndex(list, roles, roleID);
      RoleLeaves(list, roles, n);
      SetRoles(guild, list[..n] + list[n + 1..], roles - {roleID});
      assert RemovedAt(list, Listed(guild.roles), n);
      return Ok(());
    }

    static method RoleIndex(list: seq<Role>, ghost roles: map<string, Role>, roleID: string) returns (n: nat)
      requires RolesIndexed(list, roles) && roleID in roles
      ensures n < |list| && list[n].id == roleID
    {
      n := 0;
      assert roleID in RoleIDs(list);
      while list[n].id != roleID
        invariant n < |list| && roleID in RoleIDs(list)[n..]
        decreases |list| - n
      {
        n := n + 1;
      }
    }
  }

  lemma FoundMember(s: seq<Member>, m: map<string, Member>, key: string)
    requires MembersIndexed(s, m) && key in m
    ensures m[key].userID == key && m[key] in s
  {
    var i :| 0 <= i < |s| && MemberIDs(s)[i] == key;
    assert m[MemberIDs(s)[i]] == s[i];
  }

  lemma FoundRole(s: seq<Role>, m: map<string, Role>, key: string)
    requires RolesIndexed(s, m) && key in m
    ensures m[key].id == key && m[key] in s
  {
    var i :| 0 <= i < |s| && RoleIDs(s)[i] == key;
    assert m[RoleIDs(s)[i]] == s[i];
  }

  /** What a scan of a member list finds: the one member with that identifier, or none. */
  ghost predicate ScanFinds(list: seq<Member>, userID: string, found: Option<Member>) {
    match found
    case None => forall i | 0 <= i < |list| :: list[i].userID != userID
    case Some(m) => m in list && m.userID == userID && forall i | 0 <= i < |list| && list[i].userID == userID :: list[i] == m
  }

  /** The nested map answers exactly what a scan of the guild's list does, and holds as many members. */
  lemma LookupsAgree(s: State, guildID: string, userID: string)
    requires s.Valid()
    ensures guildID !in s.guildMap ==> s.LookupMember(guildID, userID) == None
    ensures guildID in s.guildMap ==>
              var list := Listed(s.guildMap[guildID].members);
              && ScanFinds(list, userID, s.LookupMember(guildID, userID))
              && guildID in s.memberMap && |s.memberMap[guildID]| == |list|
  {
    if guildID in s.guildMap {
      var list, m := Listed(s.guildMap[guildID].members), s.memberMap[guildID];
      assert Agrees(s.guildMap[guildID], m, s.roleMap[guildID]);
      LookupIsScan(MemberIDs(list), list, m, userID);
      if userID in m {
        FoundMember(list, m, userID);
      } else {
        forall i | 0 <= i < |list| ensures list[i].userID != userID {
          assert MemberIDs(list)[i] in m;
        }
      }
    }
  }

  /** One place of a list is gone; the rest keep their order. */
  predicate RemovedAt<T(==)>(before: seq<T>, after: seq<T>, n: int) {
    0 <= n < |before| && after == before[..n] + before[n + 1..]
  }

  /** One entry more in one guild, and nothing else. */
  predicate Joined<T(==)>(before: map<string, map<string, T>>, after: map<string, map<string, T>>, guildID: string,
                          key: string, x: T)
  {
    guildID in before && key !in before[guildID] && after == before[guildID := before[guildID][key := x]]
  }

  /** One entry less in one guild, and nothing else. */
  predicate Left<T(==)>(before: map<string, map<string, T>>, after: map<string, map<string, T>>, guildID: string, key: string)
  {
    guildID in before && key in before[guildID] && after == before[guildID := before[guildID] - {key}]
  }

  /** A member count of 0 is one that the update leaves out. */
  function CountAfter(given: int, before: int): int {
    if given == 0 then before else given
  }

  /** A field of the stored guild: what the update gives, or what was stored before. */
  predicate Filled<T(==)>(stored: Option<T>, given: Option<T>, before: Option<T>) {
    stored == if given.None? then before else given
  }
}
