/**
 Whole runs of updates from an empty state, each with new objects as a decoded event has them. The cache of objects
 follows a plain nested map of values, although known objects are overwritten in place.
 */
module StateRuns {
  import opened Base
  import opened Images
  import opened Indexes
  import opened StateCache

  datatype MemberData = MemberData(guildID: string, joinedAt: int, profile: string)

  datatype Op =
    | AddGuild(guildID: string, memberCount: int, rest: Option<string>, memberIDs: Option<seq<string>>, members: seq<MemberData>,
               roleIDs: Option<seq<string>>, roles: seq<string>)
    | RemoveGuild(guildID: string)
    | AddMember(userID: string, data: MemberData)
    | RemoveMember(guildID: string, userID: string)
    | AddRole(guildID: string, roleID: string, settings: string)
    | RemoveRole(guildID: string, roleID: string)
  {
    /** A list has a value for each identifier, and names each once. */
    predicate Legal() {
      AddGuild? ==>
        && (memberIDs.Some? ==> |memberIDs.value| == |members| && Distinct(memberIDs.value))
        && (roleIDs.Some? ==> |roleIDs.value| == |roles| && Distinct(roleIDs.value))
    }
  }

  /** What the cache stands for: values by guild and identifier. */
  datatype Plain = Plain(members: Nested<MemberData>, roles: Nested<string>) {
    predicate Known(guildID: string) {
      guildID in members && guildID in roles
    }

    /** The update is accepted. */
    predicate Accepts(op: Op) {
      match op
      case AddGuild(_, _, _, _, _, _, _) => true
      case RemoveGuild(guildID) => Known(guildID)
      case AddMember(_, data) => Known(data.guildID)
      case RemoveMember(guildID, userID) => Known(guildID) && userID in members[guildID]
      case AddRole(guildID, _, _) => Known(guildID)
      case RemoveRole(guildID, roleID) => Known(guildID) && roleID in roles[guildID]
    }

    /** A join time that the update leaves out is kept. */
    function Merged(userID: string, data: MemberData): MemberData {
      if Known(data.guildID) && userID in members[data.guildID] && data.joinedAt == 0
      then data.(joinedAt := members[data.guildID][userID].joinedAt) else data
    }

    function Next(op: Op): Plain
      requires op.Legal()
    {
      if !Accepts(op) then this
      else match op
        case AddGuild(g, _, _, memberIDs, data, roleIDs, settings) =>
          Plain(members[g := Given(memberIDs, data, members, g)], roles[g := Given(roleIDs, settings, roles, g)])
        case RemoveGuild(g) => Plain(members - {g}, roles - {g})
        case AddMember(userID, data) =>
          var g := data.guildID;
          Plain(members[g := members[g][userID := Merged(userID, data)]], roles)
        case RemoveMember(g, userID) => Plain(members[g := members[g] - {userID}], roles)
        case AddRole(g, roleID, settings) => Plain(members, roles[g := roles[g][roleID := settings]])
        case RemoveRole(g, roleID) => Plain(members, roles[g := roles[g] - {roleID}])
    }
  }

  /** A list that is given replaces what is known. */
  function Given<V(==)>(keys: Option<seq<string>>, values: seq<V>, known: Nested<V>, g: string): map<string, V>
    requires keys.Some? ==> |keys.value| == |values|
  {
    if keys.Some? then IndexOf(keys.value, values) else if g in known then known[g] else map[]
  }

  predicate AllLegal(ops: seq<Op>) {
    forall i | 0 <= i < |ops| :: ops[i].Legal()
  }

  function After(ops: seq<Op>): Plain
    requires AllLegal(ops)
  {
    if ops == [] then Plain(map[], map[]) else After(ops[..|ops| - 1]).Next(ops[|ops| - 1])
  }

  function Answers(ops: seq<Op>): seq<bool>
    requires AllLegal(ops)
  {
    if ops == [] then []
    else
      var n := |ops| - 1;
      Answers(ops[..n]) + [After(ops[..n]).Accepts(ops[n])]
  }

  function Value(m: Member): MemberData
    reads m
  {
    MemberData(m.guildID, m.joinedAt, m.profile)
  }

  /** The values of all objects that were ever given to the cache. */
  ghost predicate MembersHold(members: map<Member, MemberData>)
    reads members.Keys
  {
    forall m | m in members :: Value(m) == members[m]
  }

  ghost predicate RolesHold(roles: map<Role, string>)
    reads roles.Keys
  {
    forall r | r in roles :: r.settings == roles[r]
  }

  /** The objects in the map are separate and show the plain values. */
  ghost predicate Shown<T, V>(m: Nested<T>, held: map<T, V>, plain: Nested<V>) {
    Covered(m, held) && Unshared(m) && Image(m, held) == plain
  }

  /** The invariant of a run. */
  ghost predicate Follows(s: State, members: map<Member, MemberData>, roles: map<Role, string>, p: Plain)
    reads s, s.guildMap.Values, members.Keys, roles.Keys
  {
    && s.Valid() && MembersHold(members) && RolesHold(roles)
    && Shown(s.memberMap, members, p.members) && Shown(s.roleMap, roles, p.roles)
  }

  /** Every lookup answers what the plain state has. */
  lemma LookupsShow(s: State, members: map<Member, MemberData>, roles: map<Role, string>, p: Plain, g: string, k: string)
    requires Follows(s, members, roles, p)
    ensures s.LookupMember(g, k).Some? <==> g in p.members && k in p.members[g]
    ensures s.LookupMember(g, k).Some? ==>
              var m := s.LookupMember(g, k).value;
              m in members && Value(m) == members[m] == p.members[g][k]
    ensures s.LookupRole(g, k).Some? <==> g in p.roles && k in p.roles[g]
    ensures s.LookupRole(g, k).Some? ==>
              var r := s.LookupRole(g, k).value;
              r in roles && r.settings == roles[r] == p.roles[g][k]
    ensures (g in p.members <==> g in s.guildMap) && (g in p.roles <==> g in s.guildMap)
  {
    assert g in s.memberMap <==> g in p.members;
    assert g in s.roleMap <==> g in p.roles;
  }

  lemma ShownJoined<T, V>(m: Nested<T>, m': Nested<T>, held: map<T, V>, plain: Nested<V>, g: string, k: string, x: T, v: V)
    requires Shown(m, held, plain) && Joined(m, m', g, k, x) && x !in held
    ensures g in plain && Shown(m', held[x := v], plain[g := plain[g][k := v]])
  {
    hide Unshared;
    JoinedImage(m, held, g, k, x, v);
  }

  lemma ShownOverwritten<T, V>(m: Nested<T>, held: map<T, V>, plain: Nested<V>, g: string, k: string, v: V)
    requires Shown(m, held, plain) && g in m && k in m[g]
    ensures g in plain && Shown(m, held[m[g][k] := v], plain[g := plain[g][k := v]])
  {
    OverwrittenImage(m, held, g, k, v);
  }

  lemma ShownLeft<T, V>(m: Nested<T>, m': Nested<T>, held: map<T, V>, plain: Nested<V>, g: string, k: string)
    requires Shown(m, held, plain) && Left(m, m', g, k)
    ensures g in plain && Shown(m', held, plain[g := plain[g] - {k}])
  {
    hide Unshared;
    LeftImage(m, held, g, k);
  }

  lemma ShownForgotten<T, V>(m: Nested<T>, held: map<T, V>, plain: Nested<V>, g: string)
    requires Shown(m, held, plain)
    ensures Shown(m - {g}, held, plain - {g})
  {
    hide Unshared;
    ForgottenImage(m, held, g);
  }

  /** A list of new objects, each once, with these values. */
  ghost predicate Minted<T, V>(held: map<T, V>, held': map<T, V>, s: seq<T>, values: seq<V>) {
    && |s| == |values|
    && (forall x | x in held :: x in held' && held'[x] == held[x])
    && (forall i | 0 <= i < |s| :: s[i] !in held && s[i] in held' && held'[s[i]] == values[i])
    && (forall i, j | 0 <= i < j < |s| :: s[i] != s[j])
  }

  lemma ShownIndexed<T, V>(m: Nested<T>, held: map<T, V>, held': map<T, V>, plain: Nested<V>, g: string,
                           keys: seq<string>, s: seq<T>, values: seq<V>)
    requires Shown(m, held, plain) && Minted(held, held', s, values) && |keys| == |s| && Distinct(keys)
    ensures Shown(m[g := IndexOf(keys, s)], held', plain[g := IndexOf(keys, values)])
  {
    hide Unshared, IndexOf;
    IndexedImage(m, held, g, keys, s, held', values);
  }

  lemma ShownWider<T, V>(m: Nested<T>, held: map<T, V>, held': map<T, V>, plain: Nested<V>)
    requires Shown(m, held, plain) && forall x | x in held :: x in held' && held'[x] == held[x]
    ensures Shown(m, held', plain) && m.Keys == plain.Keys
  {
    WiderImage(m, held, held');
  }

  lemma ShownGiven<T, V>(m: Nested<T>, held: map<T, V>, held': map<T, V>, plain: Nested<V>, g: string,
                         keys: Option<seq<string>>, s: seq<T>, values: seq<V>)
    requires Shown(m, held, plain) && Minted(held, held', s, values)
    requires keys.Some? ==> |keys.value| == |s| && Distinct(keys.value)
    ensures Shown(m[g := Given(keys, s, m, g)], held', plain[g := Given(keys, values, plain, g)])
  {
    hide Shown;
    ShownWider(m, held, held', plain);
    if keys.Some? {
      ShownIndexed(m, held, held', plain, g, keys.value, s, values);
    } else if g in m {
      assert m[g := m[g]] == m && plain[g := plain[g]] == plain;
    } else {
      assert IndexOf<T>([], []) == map[] && IndexOf<V>([], []) == map[];
      ShownIndexed(m, held, held', plain, g, [], [], []);
    }
  }

  /** What objects hold after a member was delivered: the known object is overwritten, or the new one joins. */
  ghost function HeldAfter(members: map<Member, MemberData>, known: Option<Member>, member: Member, data: MemberData)
    : map<Member, MemberData>
    requires known.Some? ==> known.value in members
  {
    if known.None? then members[member := data]
    else
      var before := members[known.value];
      members[known.value := if data.joinedAt == 0 then data.(joinedAt := before.joinedAt) else data]
  }

  method DeliverMember(s: State, userID: string, data: MemberData, ghost members: map<Member, MemberData>)
    returns (ok: bool, ghost member: Member)
    requires s.Valid() && MembersHold(members)
    requires forall m | m in s.KnownMember(data.guildID, userID) :: m in members
    modifies s`memberMap, s.guildMap.Values, members.Keys
    ensures s.Valid() && fresh(member) && (ok <==> data.guildID in s.guildMap)
    ensures var known := old(s.LookupMember(data.guildID, userID));
      && MembersHold(if ok then HeldAfter(members, known, member, data) else members)
      && if ok && known.None? then Joined(old(s.memberMap), s.memberMap, data.guildID, userID, member)
         else s.memberMap == old(s.memberMap)
  {
    hide State.Valid, Joined, Listed;
    var x := new Member(userID, data.guildID, data.joinedAt, data.profile);
    var r := s.MemberAdd(x);
    ok, member := r.Ok?, x;
    forall m | m in members && Some(m) != old(s.LookupMember(data.guildID, userID)) ensures Value(m) == members[m] {
      assert Value(m) == old(Value(m));
    }
  }

  method AddMember(s: State, userID: string, data: MemberData, ghost members: map<Member, MemberData>,
                   ghost roles: map<Role, string>, ghost p: Plain)
    returns (ok: bool, ghost members': map<Member, MemberData>)
    requires Follows(s, members, roles, p)
    modifies s, s.guildMap.Values, members.Keys
    ensures ok == p.Accepts(Op.AddMember(userID, data)) && Follows(s, members', roles, p.Next(Op.AddMember(userID, data)))
    ensures fresh(members'.Keys - members.Keys) && s.guildMap == old(s.guildMap)
  {
    hide Shown, State.Valid, Joined, MembersHold, RolesHold;
    LookupsShow(s, members, roles, p, data.guildID, userID);
    ghost var known, before := s.LookupMember(data.guildID, userID), s.memberMap;
    ghost var member;
    ok, member := DeliverMember(s, userID, data, members);
    members' := if ok then HeldAfter(members, known, member, data) else members;
    if ok && known.None? {
      ShownJoined(before, s.memberMap, members, p.members, data.guildID, userID, member, data);
    } else if ok {
      ShownOverwritten(before, members, p.members, data.guildID, userID, p.Merged(userID, data));
    }
  }

  ghost function RoleHeldAfter(roles: map<Role, string>, known: Option<Role>, role: Role, settings: string): map<Role, string> {
    if known.None? then roles[role := settings] else roles[known.value := settings]
  }

  method DeliverRole(s: State, guildID: string, roleID: string, settings: string, ghost roles: map<Role, string>)
    returns (ok: bool, ghost role: Role)
    requires s.Valid() && RolesHold(roles)
    requires forall r | r in s.KnownRole(guildID, roleID) :: r in roles
    modifies s`roleMap, s.guildMap.Values, roles.Keys
    ensures s.Valid() && fresh(role) && (ok <==> guildID in s.guildMap)
    ensures var known := old(s.LookupRole(guildID, roleID));
      && RolesHold(if ok then RoleHeldAfter(roles, known, role, settings) else roles)
      && if ok && known.None? then Joined(old(s.roleMap), s.roleMap, guildID, roleID, role)
         else s.roleMap == old(s.roleMap)
  {
    hide State.Valid, Joined, Listed;
    var x := new Role(roleID, settings);
    var r := s.RoleAdd(guildID, x);
    ok, role := r.Ok?, x;
    forall r | r in roles && Some(r) != old(s.LookupRole(guildID, roleID)) ensures r.settings == roles[r] {
      assert r.settings == old(r.settings);
    }
  }

  method AddRole(s: State, guildID: string, roleID: string, settings: string, ghost members: map<Member, MemberData>,
                 ghost roles: map<Role, string>, ghost p: Plain)
    returns (ok: bool, ghost roles': map<Role, string>)
    requires Follows(s, members, roles, p)
    modifies s, s.guildMap.Values, roles.Keys
    ensures var op := Op.AddRole(guildID, roleID, settings);
      ok == p.Accepts(op) && Follows(s, members, roles', p.Next(op))
    ensures fresh(roles'.Keys - roles.Keys) && s.guildMap == old(s.guildMap)
  {
    hide Shown, State.Valid, Joined, MembersHold, RolesHold;
    LookupsShow(s, members, roles, p, guildID, roleID);
    ghost var known, before := s.LookupRole(guildID, roleID), s.roleMap;
    ghost var role;
    ok, role := DeliverRole(s, guildID, roleID, settings, roles);
    roles' := if ok then RoleHeldAfter(roles, known, role, settings) else roles;
    if ok && known.None? {
      ShownJoined(before, s.roleMap, roles, p.roles, guildID, roleID, role, settings);
    } else if ok {
      ShownOverwritten(before, roles, p.roles, guildID, roleID, settings);
    }
  }

  method RemoveMember(s: State, guildID: string, userID: string, ghost members: map<Member, MemberData>,
                      ghost roles: map<Role, string>, ghost p: Plain)
    returns (ok: bool)
    requires Follows(s, members, roles, p)
    modifies s, s.guildMap.Values
    ensures var op := Op.RemoveMember(guildID, userID);
      ok == p.Accepts(op) && Follows(s, members, roles, p.Next(op))
    ensures s.guildMap == old(s.guildMap)
  {
    hide Shown, State.Valid, Left, Listed, MembersHold, RolesHold;
    LookupsShow(s, members, roles, p, guildID, userID);
    ghost var before := s.memberMap;
    var r := s.MemberRemove(guildID, userID);
    ok := r.Ok?;
    if ok {
      ShownLeft(before, s.memberMap, members, p.members, guildID, userID);
    }
  }

  method RemoveRole(s: State, guildID: string, roleID: string, ghost members: map<Member, MemberData>,
                    ghost roles: map<Role, string>, ghost p: Plain)
    returns (ok: bool)
    requires Follows(s, members, roles, p)
    modifies s, s.guildMap.Values
    ensures var op := Op.RemoveRole(guildID, roleID);
      ok == p.Accepts(op) && Follows(s, members, roles, p.Next(op))
    ensures s.guildMap == old(s.guildMap)
  {
    hide Shown, State.Valid, Left, Listed, MembersHold, RolesHold;
    LookupsShow(s, members, roles, p, guildID, roleID);
    ghost var before := s.roleMap;
    var r := s.RoleRemove(guildID, roleID);
    ok := r.Ok?;
    if ok {
      ShownLeft(before, s.roleMap, roles, p.roles, guildID, roleID);
    }
  }

  method RemoveGuild(s: State, guildID: string, ghost members: map<Member, MemberData>, ghost roles: map<Role, string>,
                     ghost p: Plain)
    returns (ok: bool)
    requires Follows(s, members, roles, p)
    modifies s
    ensures var op := Op.RemoveGuild(guildID);
      ok == p.Accepts(op) && Follows(s, members, roles, p.Next(op))
    ensures s.guildMap.Values <= old(s.guildMap.Values)
  {
    hide Shown, State.Valid, RemovedAt, MembersHold, RolesHold;
    LookupsShow(s, members, roles, p, guildID, "");
    ghost var m, r := s.memberMap, s.roleMap;
    var answer := s.GuildRemove(guildID);
    ok := answer.Ok?;
    ShownForgotten(m, members, p.members, guildID);
    ShownForgotten(r, roles, p.roles, guildID);
    if !ok {
      assert p.members - {guildID} == p.members && p.roles - {guildID} == p.roles;
    }
  }

  method MakeMembers(ids: seq<string>, data: seq<MemberData>, ghost members: map<Member, MemberData>)
    returns (list: seq<Member>, ghost members': map<Member, MemberData>)
    requires |ids| == |data| && MembersHold(members)
    ensures MembersHold(members') && Minted(members, members', list, data) && MemberIDs(list) == ids
    ensures fresh(members'.Keys - members.Keys)
  {
    list, members' := [], members;
    for i := 0 to |ids|
      invariant MembersHold(members') && Minted(members, members', list, data[..i]) && MemberIDs(list) == ids[..i]
      invariant fresh(members'.Keys - members.Keys)
    {
      var member := new Member(ids[i], data[i].guildID, data[i].joinedAt, data[i].profile);
      list, members' := list + [member], members'[member := data[i]];
    }
  }

  method MakeRoles(ids: seq<string>, settings: seq<string>, ghost roles: map<Role, string>)
    returns (list: seq<Role>, ghost roles': map<Role, string>)
    requires |ids| == |settings| && RolesHold(roles)
    ensures RolesHold(roles') && Minted(roles, roles', list, settings) && RoleIDs(list) == ids
    ensures fresh(roles'.Keys - roles.Keys)
  {
    list, roles' := [], roles;
    for i := 0 to |ids|
      invariant RolesHold(roles') && Minted(roles, roles', list, settings[..i]) && RoleIDs(list) == ids[..i]
      invariant fresh(roles'.Keys - roles.Keys)
    {
      var role := new Role(ids[i], settings[i]);
      list, roles' := list + [role], roles'[role := settings[i]];
    }
  }

  /** The guild of an update, with new objects in its lists. */
  method Decode(op: Op, ghost members: map<Member, MemberData>, ghost roles: map<Role, string>)
    returns (guild: Guild, ghost members': map<Member, MemberData>, ghost roles': map<Role, string>)
    requires op.AddGuild? && op.Legal() && MembersHold(members) && RolesHold(roles)
    ensures MembersHold(members') && RolesHold(roles') && fresh(guild) && guild.id == op.guildID && WellFormed(guild)
    ensures fresh(members'.Keys - members.Keys) && fresh(roles'.Keys - roles.Keys)
    ensures Minted(members, members', Listed(guild.members), if op.memberIDs.Some? then op.members else [])
    ensures Minted(roles, roles', Listed(guild.roles), if op.roleIDs.Some? then op.roles else [])
    ensures if guild.members.Some? then op.memberIDs == Some(MemberIDs(guild.members.value)) else op.memberIDs.None?
    ensures if guild.roles.Some? then op.roleIDs == Some(RoleIDs(guild.roles.value)) else op.roleIDs.None?
  {
    hide Minted, MemberIDs, RoleIDs, MembersHold, RolesHold;
    var memberIDs := if op.memberIDs.Some? then op.memberIDs.value else [];
    var data := if op.memberIDs.Some? then op.members else [];
    var roleIDs := if op.roleIDs.Some? then op.roleIDs.value else [];
    var settings := if op.roleIDs.Some? then op.roles else [];
    var memberList, roleList;
    memberList, members' := MakeMembers(memberIDs, data, members);
    roleList, roles' := MakeRoles(roleIDs, settings, roles);
    guild := new Guild(op.guildID, op.memberCount, if op.memberIDs.Some? then Some(memberList) else None,
                       if op.roleIDs.Some? then Some(roleList) else None, op.rest);
    assert op.memberIDs.None? ==> memberList == [];
    assert op.roleIDs.None? ==> roleList == [];
  }

  /** The indexes of the decoded guild show what the update says. */
  lemma IndexesShown(s: State, guild: Guild, op: Op, members: map<Member, MemberData>, members': map<Member, MemberData>,
                     roles: map<Role, string>, roles': map<Role, string>, p: Plain)
    requires op.AddGuild? && op.Legal() && guild.id == op.guildID
    requires Shown(s.memberMap, members, p.members) && Shown(s.roleMap, roles, p.roles)
    requires Minted(members, members', Listed(guild.members), if op.memberIDs.Some? then op.members else [])
    requires Minted(roles, roles', Listed(guild.roles), if op.roleIDs.Some? then op.roles else [])
    requires if guild.members.Some? then op.memberIDs == Some(MemberIDs(guild.members.value)) else op.memberIDs.None?
    requires if guild.roles.Some? then op.roleIDs == Some(RoleIDs(guild.roles.value)) else op.roleIDs.None?
    ensures Shown(s.memberMap[guild.id := s.MembersAfter(guild)], members', p.Next(op).members)
    ensures Shown(s.roleMap[guild.id := s.RolesAfter(guild)], roles', p.Next(op).roles)
  {
    hide Shown, IndexOf, Distinct, MemberIDs, RoleIDs, Minted;
    ShownGiven(s.memberMap, members, members', p.members, op.guildID, op.memberIDs, Listed(guild.members),
               if op.memberIDs.Some? then op.members else []);
    ShownGiven(s.roleMap, roles, roles', p.roles, op.guildID, op.roleIDs, Listed(guild.roles),
               if op.roleIDs.Some? then op.roles else []);
  }

  method AddGuild(s: State, op: Op, ghost members: map<Member, MemberData>, ghost roles: map<Role, string>, ghost p: Plain)
    returns (ghost members': map<Member, MemberData>, ghost roles': map<Role, string>)
    requires op.AddGuild? && op.Legal() && Follows(s, members, roles, p)
    modifies s, s.guildMap.Values
    ensures Follows(s, members', roles', p.Next(op))
    ensures fresh(members'.Keys - members.Keys) && fresh(roles'.Keys - roles.Keys)
    ensures fresh(s.guildMap.Values - old(s.guildMap.Values))
  {
    hide Shown, State.Valid, MembersHold, RolesHold, IndexOf, Distinct, MemberIDs, RoleIDs, WellFormed, Filled, Minted;
    hide Plain.Next, Listed, State.MembersAfter, State.RolesAfter;
    var guild;
    guild, members', roles' := Decode(op, members, roles);
    IndexesShown(s, guild, op, members, members', roles, roles', p);
    s.GuildAdd(guild);
  }

  /** One update. */
  method Perform(s: State, op: Op, ghost members: map<Member, MemberData>, ghost roles: map<Role, string>, ghost p: Plain)
    returns (ok: bool, ghost members': map<Member, MemberData>, ghost roles': map<Role, string>)
    requires op.Legal() && Follows(s, members, roles, p)
    modifies s, s.guildMap.Values, members.Keys, roles.Keys
    ensures ok == p.Accepts(op) && Follows(s, members', roles', p.Next(op))
    ensures fresh(members'.Keys - members.Keys) && fresh(roles'.Keys - roles.Keys)
    ensures fresh(s.guildMap.Values - old(s.guildMap.Values))
  {
    hide Follows, Plain.Next;
    ok, members', roles' := true, members, roles;
    match op {
      case AddGuild(_, _, _, _, _, _, _) => members', roles' := AddGuild(s, op, members, roles, p);
      case RemoveGuild(guildID) => ok := RemoveGuild(s, guildID, members, roles, p);
      case AddMember(userID, data) => ok, members' := AddMember(s, userID, data, members, roles, p);
      case RemoveMember(guildID, userID) => ok := RemoveMember(s, guildID, userID, members, roles, p);
      case AddRole(guildID, roleID, settings) => ok, roles' := AddRole(s, guildID, roleID, settings, members, roles, p);
      case RemoveRole(guildID, roleID) => ok := RemoveRole(s, guildID, roleID, members, roles, p);
    }
  }

  /**
   Every run from an empty state: maps and lists agree, each update is answered as the plain state says, and the cache
   shows the plain state (so LookupsShow applies).
   */
  method Run(ops: seq<Op>)
    returns (s: State, answers: seq<bool>, ghost members: map<Member, MemberData>, ghost roles: map<Role, string>)
    requires AllLegal(ops)
    ensures fresh(s) && answers == Answers(ops) && Follows(s, members, roles, After(ops))
  {
    s := new State();
    answers, members, roles := [], map[], map[];
    for i := 0 to |ops|
      invariant fresh(s) && fresh(s.guildMap.Values) && fresh(members.Keys) && fresh(roles.Keys)
      invariant AllLegal(ops[..i]) && answers == Answers(ops[..i]) && Follows(s, members, roles, After(ops[..i]))
    {
      hide Follows, Plain.Next, Plain.Accepts, Op.Legal;
      assert ops[..i + 1][..i] == ops[..i];
      var ok;
      ok, members, roles := Perform(s, ops[i], members, roles, After(ops[..i]));
      answers := answers + [ok];
    }
    assert ops[..|ops|] == ops;
  }
}
