/**
 What a guild member may do in a channel (memberPermissions, restapi.go). A 64-bit permission mask is the set of the bits
 that are on: | is union, &^ is difference, and a test for a one-bit mask is membership.
 */
module Permissions {
  type Mask = set<nat>

  const ADMINISTRATOR := 3

  /** The bits of PermissionAllText. */
  predicate IsText(b: nat) {
    10 <= b <= 18 || b == 31 || 34 <= b <= 38 || b == 46 || 49 <= b <= 52
  }

  /** The bits of PermissionAllVoice. */
  predicate IsVoice(b: nat) {
    8 <= b <= 10 || 20 <= b <= 25 || b == 32 || b == 39 || b == 42 || b == 45 || b == 48
  }

  const ALL_CHANNEL: Mask := set b: nat | b < 64 && (IsText(b) || IsVoice(b) || b == 0 || b == 4 || b == 6 || b == 28)

  /** Every bit in use. */
  const ALL: Mask := set b: nat | b <= 52 && b != 47

  /** The bits of PermissionAll beyond those of PermissionAllChannel, one by one. */
  lemma AllIsAllChannelAndMore()
    ensures ALL == ALL_CHANNEL + {1, 2, 3, 5, 7, 19, 26, 27, 29, 30, 33, 40, 41, 43, 44}
    ensures ADMINISTRATOR in ALL - ALL_CHANNEL
  {
  }

  datatype Role = Role(id: string, permissions: Mask)

  datatype Target = RoleTarget | MemberTarget

  datatype Overwrite = Overwrite(id: string, target: Target, deny: Mask, allow: Mask)

  datatype Guild = Guild(id: string, ownerID: string, roles: seq<Role>)

  // ---- The calculation ------------------------------------------------------------------------------

  /** The permissions of the first role with an identifier. */
  function FirstRole(roles: seq<Role>, id: string): Mask {
    if roles == [] then {} else if roles[0].id == id then roles[0].permissions else FirstRole(roles[1..], id)
  }

  predicate For(o: Overwrite, id: string, memberOnly: bool) {
    o.id == id && (memberOnly ==> o.target.MemberTarget?)
  }

  /** The first overwrite for an identifier, of any kind or of kind member; an empty one if there is none. */
  function FirstOverwrite(overwrites: seq<Overwrite>, id: string, memberOnly: bool): Overwrite {
    if overwrites == [] then Overwrite(id, MemberTarget, {}, {})
    else if For(overwrites[0], id, memberOnly) then overwrites[0]
    else FirstOverwrite(overwrites[1..], id, memberOnly)
  }

  /** Everything that any role with one of the identifiers grants. */
  ghost function RolesWith(roles: seq<Role>, ids: seq<string>): Mask {
    set r, b | r in roles && r.id in ids && b in r.permissions :: b
  }

  ghost function RoleDenies(overwrites: seq<Overwrite>, memberRoles: seq<string>): Mask {
    set o, b | o in overwrites && o.target.RoleTarget? && o.id in memberRoles && b in o.deny :: b
  }

  ghost function RoleAllows(overwrites: seq<Overwrite>, memberRoles: seq<string>): Mask {
    set o, b | o in overwrites && o.target.RoleTarget? && o.id in memberRoles && b in o.allow :: b
  }

  function Apply(p: Mask, deny: Mask, allow: Mask): Mask {
    p - deny + allow
  }

  function WithAdmin(p: Mask, all: Mask): Mask {
    if ADMINISTRATOR in p then p + all else p
  }

  /** What the calculation gives: the searches for @everyone and for the member stop at the first match. */
  ghost function Calculated(g: Guild, overwrites: seq<Overwrite>, userID: string, memberRoles: seq<string>): Mask {
    if userID == g.ownerID then ALL
    else
      var everyone, own := FirstOverwrite(overwrites, g.id, false), FirstOverwrite(overwrites, userID, true);
      var p0 := WithAdmin(FirstRole(g.roles, g.id) + RolesWith(g.roles, memberRoles), ALL);
      var p1 := Apply(p0, everyone.deny, everyone.allow);
      var p2 := Apply(p1, RoleDenies(overwrites, memberRoles), RoleAllows(overwrites, memberRoles));
      WithAdmin(Apply(p2, own.deny, own.allow), ALL_CHANNEL)
  }

  method MemberPermissions(g: Guild, overwrites: seq<Overwrite>, userID: string, memberRoles: seq<string>) returns (p: Mask)
    ensures p == Calculated(g, overwrites, userID, memberRoles)
  {
    hide RolesWith, RoleDenies, RoleAllows, FirstRole, FirstOverwrite;
    if userID == g.ownerID {
      return ALL;
    }
    p := AddEveryoneRole({}, g);
    p := AddMemberRoles(p, g.roles, memberRoles);
    if ADMINISTRATOR in p {
      p := p + ALL;
    }
    p := ApplyFirst(p, overwrites, g.id, false);
    var denies, allows := CollectRoles(overwrites, memberRoles);
    p := p - denies;
    p := p + allows;
    p := ApplyFirst(p, overwrites, userID, true);
    if ADMINISTRATOR in p {
      p := p + ALL_CHANNEL;
    }
  }

  method AddEveryoneRole(p: Mask, g: Guild) returns (q: Mask)
    ensures q == p + FirstRole(g.roles, g.id)
  {
    for i := 0 to |g.roles|
      invariant FirstRole(g.roles, g.id) == FirstRole(g.roles[i..], g.id)
    {
      assert g.roles[i..][1..] == g.roles[i + 1..];
      if g.roles[i].id == g.id {
        return p + g.roles[i].permissions;
      }
    }
    return p;
  }

  method AddMemberRoles(p: Mask, roles: seq<Role>, memberRoles: seq<string>) returns (q: Mask)
    ensures q == p + RolesWith(roles, memberRoles)
  {
    q := p;
    for i := 0 to |roles|
      invariant q == p + RolesWith(roles[..i], memberRoles)
    {
      assert roles[..i + 1] == roles[..i] + [roles[i]];
      var found := Contains(memberRoles, roles[i].id);
      if found {
        q := q + roles[i].permissions;
      }
    }
    assert roles[..|roles|] == roles;
  }

  method Contains(memberRoles: seq<string>, id: string) returns (found: bool)
    ensures found <==> id in memberRoles
  {
    for i := 0 to |memberRoles|
      invariant id !in memberRoles[..i]
    {
      if memberRoles[i] == id {
        return true;
      }
    }
    return false;
  }

  method ApplyFirst(p: Mask, overwrites: seq<Overwrite>, id: string, memberOnly: bool) returns (q: Mask)
    ensures var o := FirstOverwrite(overwrites, id, memberOnly); q == Apply(p, o.deny, o.allow)
  {
    for i := 0 to |overwrites|
      invariant FirstOverwrite(overwrites, id, memberOnly) == FirstOverwrite(overwrites[i..], id, memberOnly)
    {
      assert overwrites[i..][1..] == overwrites[i + 1..];
      if For(overwrites[i], id, memberOnly) {
        return p - overwrites[i].deny + overwrites[i].allow;
      }
    }
    return p;
  }

  method CollectRoles(overwrites: seq<Overwrite>, memberRoles: seq<string>) returns (denies: Mask, allows: Mask)
    ensures denies == RoleDenies(overwrites, memberRoles) && allows == RoleAllows(overwrites, memberRoles)
  {
    denies, allows := {}, {};
    for i := 0 to |overwrites|
      invariant denies == RoleDenies(overwrites[..i], memberRoles) && allows == RoleAllows(overwrites[..i], memberRoles)
    {
      assert overwrites[..i + 1] == overwrites[..i] + [overwrites[i]];
      var found := Contains(memberRoles, overwrites[i].id);
      if overwrites[i].target.RoleTarget? && found {
        denies := denies + overwrites[i].deny;
        allows := allows + overwrites[i].allow;
      }
    }
    assert overwrites[..|overwrites|] == overwrites;
  }

  // ---- The closed form --------------------------------------------------------------------------------

  /** All overwrites that a search could stop at do the same: they allow the same and deny the same beyond that. */
  predicate OverwritesAgree(overwrites: seq<Overwrite>, id: string, memberOnly: bool) {
    forall i, j | 0 <= i < |overwrites| && 0 <= j < |overwrites| ::
      For(overwrites[i], id, memberOnly) && For(overwrites[j], id, memberOnly) ==> SameEffect(overwrites[i], overwrites[j])
  }

  predicate SameEffect(x: Overwrite, y: Overwrite) {
    x.allow == y.allow && x.deny - x.allow == y.deny - y.allow
  }

  /** All roles with an identifier grant the same. */
  predicate RolesAgree(roles: seq<Role>, id: string) {
    forall i, j | 0 <= i < |roles| && 0 <= j < |roles| ::
      roles[i].id == id && roles[j].id == id ==> roles[i].permissions == roles[j].permissions
  }

  /** Wherever a search stops at its first match, all matches agree: so it is when identifiers are unique. */
  predicate MatchesAgree(g: Guild, overwrites: seq<Overwrite>, userID: string) {
    && RolesAgree(g.roles, g.id) && OverwritesAgree(overwrites, g.id, false)
    && OverwritesAgree(overwrites, userID, true)
  }

  /** Identifiers are unique among the guild's roles and among the channel's overwrites. */
  predicate UniqueIDs(g: Guild, overwrites: seq<Overwrite>) {
    && (forall i, j | 0 <= i < j < |g.roles| :: g.roles[i].id != g.roles[j].id)
    && (forall i, j | 0 <= i < j < |overwrites| :: overwrites[i].id != overwrites[j].id)
  }

  lemma UniqueMatchesAgree(g: Guild, overwrites: seq<Overwrite>, userID: string)
    requires UniqueIDs(g, overwrites)
    ensures MatchesAgree(g, overwrites, userID)
  {
    forall i, j | 0 <= i < |g.roles| && 0 <= j < |g.roles| && g.roles[i].id == g.roles[j].id ensures i == j {
      assert i < j || j < i || i == j;
    }
    forall i, j | 0 <= i < |overwrites| && 0 <= j < |overwrites| && overwrites[i].id == overwrites[j].id ensures i == j {
      assert i < j || j < i || i == j;
    }
  }

  ghost function Denied(overwrites: seq<Overwrite>, id: string, memberOnly: bool): Mask {
    set o, b | o in overwrites && For(o, id, memberOnly) && b in o.deny :: b
  }

  ghost function Allowed(overwrites: seq<Overwrite>, id: string, memberOnly: bool): Mask {
    set o, b | o in overwrites && For(o, id, memberOnly) && b in o.allow :: b
  }

  /** What roles alone give. */
  ghost function FromRoles(g: Guild, memberRoles: seq<string>): Mask {
    WithAdmin(RolesWith(g.roles, [g.id]) + RolesWith(g.roles, memberRoles), ALL)
  }

  /** Then the overwrites of @everyone, then the union of the role overwrites, then the member's own. */
  ghost function Overwritten(g: Guild, overwrites: seq<Overwrite>, userID: string, memberRoles: seq<string>): Mask {
    var p1 := Apply(FromRoles(g, memberRoles), Denied(overwrites, g.id, false), Allowed(overwrites, g.id, false));
    var p2 := Apply(p1, RoleDenies(overwrites, memberRoles), RoleAllows(overwrites, memberRoles));
    Apply(p2, Denied(overwrites, userID, true), Allowed(overwrites, userID, true))
  }

  /** The stages, each a union over all that applies, in no order. */
  ghost function Permitted(g: Guild, overwrites: seq<Overwrite>, userID: string, memberRoles: seq<string>): Mask {
    if userID == g.ownerID then ALL else WithAdmin(Overwritten(g, overwrites, userID, memberRoles), ALL_CHANNEL)
  }

  // ---- Bit by bit -------------------------------------------------------------------------------------

  /** Some overwrite for an identifier, of any kind or of kind member, has the bit in what it allows, or denies. */
  predicate Allows(overwrites: seq<Overwrite>, id: string, memberOnly: bool, b: nat) {
    exists o | o in overwrites :: o.id == id && (memberOnly ==> o.target == MemberTarget) && b in o.allow
  }

  predicate Denies(overwrites: seq<Overwrite>, id: string, memberOnly: bool, b: nat) {
    exists o | o in overwrites :: o.id == id && (memberOnly ==> o.target == MemberTarget) && b in o.deny
  }

  /** Some overwrite of a role that the member has. */
  predicate RoleAllowsBit(overwrites: seq<Overwrite>, memberRoles: seq<string>, b: nat) {
    exists o | o in overwrites :: o.target == RoleTarget && o.id in memberRoles && b in o.allow
  }

  predicate RoleDeniesBit(overwrites: seq<Overwrite>, memberRoles: seq<string>, b: nat) {
    exists o | o in overwrites :: o.target == RoleTarget && o.id in memberRoles && b in o.deny
  }

  /** Some role of everyone, or of the member, grants the bit. */
  predicate RoleGrants(g: Guild, memberRoles: seq<string>, b: nat) {
    exists r | r in g.roles :: (r.id == g.id || r.id in memberRoles) && b in r.permissions
  }

  /** The last stage that says anything about a bit decides it, and allowing wins within a stage. */
  predicate Decided(g: Guild, overwrites: seq<Overwrite>, userID: string, memberRoles: seq<string>, granted: bool, b: nat) {
    if Allows(overwrites, userID, true, b) then true
    else if Denies(overwrites, userID, true, b) then false
    else if RoleAllowsBit(overwrites, memberRoles, b) then true
    else if RoleDeniesBit(overwrites, memberRoles, b) then false
    else if Allows(overwrites, g.id, false, b) then true
    else if Denies(overwrites, g.id, false, b) then false
    else granted
  }

  /**
   Every bit of the result, by who grants, denies and allows it: the owner has every bit in use; Administrator from roles
   grants every bit to the overwrites, and Administrator after them every channel permission.
   */
  lemma EveryBit(g: Guild, overwrites: seq<Overwrite>, userID: string, memberRoles: seq<string>, b: nat)
    requires MatchesAgree(g, overwrites, userID)
    ensures var admin := RoleGrants(g, memberRoles, 3);
            var left := Decided(g, overwrites, userID, memberRoles, admin, 3);
            b in Calculated(g, overwrites, userID, memberRoles) <==>
              if userID == g.ownerID then b <= 52 && b != 47
              else
                || Decided(g, overwrites, userID, memberRoles, RoleGrants(g, memberRoles, b) || (admin && b <= 52 && b != 47), b)
                || (left && b in ALL_CHANNEL)
  {
    CalculatedIsPermitted(g, overwrites, userID, memberRoles);
    if userID != g.ownerID {
      BitOverwritten(g, overwrites, userID, memberRoles, b);
      BitOverwritten(g, overwrites, userID, memberRoles, 3);
      hide Decided, Overwritten;
    }
  }

  lemma BitOverwritten(g: Guild, overwrites: seq<Overwrite>, userID: string, memberRoles: seq<string>, b: nat)
    ensures b in Overwritten(g, overwrites, userID, memberRoles) <==>
            Decided(g, overwrites, userID, memberRoles,
                    RoleGrants(g, memberRoles, b) || (RoleGrants(g, memberRoles, 3) && b <= 52 && b != 47), b)
  {
    hide FromRoles, Denied, Allowed, RoleDenies, RoleAllows, Allows, Denies, RoleAllowsBit, RoleDeniesBit, RoleGrants;
    BitFromRoles(g, memberRoles, b);
    BitInStages(overwrites, g.id, false, memberRoles, b);
    BitInStages(overwrites, userID, true, memberRoles, b);
  }

  lemma BitFromRoles(g: Guild, memberRoles: seq<string>, b: nat)
    ensures b in FromRoles(g, memberRoles) <==>
            RoleGrants(g, memberRoles, b) || (RoleGrants(g, memberRoles, 3) && b <= 52 && b != 47)
  {
  }

  lemma BitInStages(overwrites: seq<Overwrite>, id: string, memberOnly: bool, memberRoles: seq<string>, b: nat)
    ensures b in Allowed(overwrites, id, memberOnly) <==> Allows(overwrites, id, memberOnly, b)
    ensures b in Denied(overwrites, id, memberOnly) <==> Denies(overwrites, id, memberOnly, b)
    ensures b in RoleAllows(overwrites, memberRoles) <==> RoleAllowsBit(overwrites, memberRoles, b)
    ensures b in RoleDenies(overwrites, memberRoles) <==> RoleDeniesBit(overwrites, memberRoles, b)
  {
  }

  /** The search finds a match if there is one. */
  lemma {:induction false} FirstOverwriteMatches(overwrites: seq<Overwrite>, id: string, memberOnly: bool)
    ensures var o := FirstOverwrite(overwrites, id, memberOnly);
            if exists x :: x in overwrites && For(x, id, memberOnly) then o in overwrites && For(o, id, memberOnly)
            else o == Overwrite(id, MemberTarget, {}, {})
  {
    if overwrites != [] {
      FirstOverwriteMatches(overwrites[1..], id, memberOnly);
      assert overwrites == [overwrites[0]] + overwrites[1..];
    }
  }

  /** Both searches stop at the first match. */
  lemma {:induction false} FirstMatchCounts(overwrites: seq<Overwrite>, id: string, memberOnly: bool, i: nat)
    requires i < |overwrites| && overwrites[i].id == id && (memberOnly ==> overwrites[i].target == MemberTarget)
    requires forall j | 0 <= j < i :: overwrites[j].id != id || (memberOnly && overwrites[j].target == RoleTarget)
    ensures FirstOverwrite(overwrites, id, memberOnly) == overwrites[i]
  {
    if i > 0 {
      FirstMatchCounts(overwrites[1..], id, memberOnly, i - 1);
    }
  }

  lemma {:induction false} FirstRoleCounts(roles: seq<Role>, id: string, i: nat)
    requires i < |roles| && roles[i].id == id && forall j | 0 <= j < i :: roles[j].id != id
    ensures FirstRole(roles, id) == roles[i].permissions
  {
    if i > 0 {
      FirstRoleCounts(roles[1..], id, i - 1);
    }
  }

  lemma {:induction false} FirstRoleMatches(roles: seq<Role>, id: string)
    ensures if exists r :: r in roles && r.id == id
            then exists r :: r in roles && r.id == id && r.permissions == FirstRole(roles, id)
            else FirstRole(roles, id) == {}
  {
    if roles != [] {
      FirstRoleMatches(roles[1..], id);
      assert roles == [roles[0]] + roles[1..];
    }
  }

  /** Where matches agree, applying the first is applying the union of all. */
  lemma FirstIsEvery(p: Mask, overwrites: seq<Overwrite>, id: string, memberOnly: bool)
    requires OverwritesAgree(overwrites, id, memberOnly)
    ensures var o := FirstOverwrite(overwrites, id, memberOnly);
            Apply(p, o.deny, o.allow) == Apply(p, Denied(overwrites, id, memberOnly), Allowed(overwrites, id, memberOnly))
  {
    var o := FirstOverwrite(overwrites, id, memberOnly);
    FirstOverwriteMatches(overwrites, id, memberOnly);
    forall x | x in overwrites && For(x, id, memberOnly) ensures SameEffect(x, o) {
      var i :| 0 <= i < |overwrites| && overwrites[i] == x;
      var j :| 0 <= j < |overwrites| && overwrites[j] == o;
    }
    assert Allowed(overwrites, id, memberOnly) == o.allow;
    assert Denied(overwrites, id, memberOnly) - o.allow == o.deny - o.allow by {
      forall b | b in Denied(overwrites, id, memberOnly) - o.allow ensures b in o.deny {
        var x :| x in overwrites && For(x, id, memberOnly) && b in x.deny;
        assert b in x.deny - x.allow;
      }
    }
    ApplySame(p, Denied(overwrites, id, memberOnly), o.deny, o.allow);
  }

  lemma ApplySame(p: Mask, deny: Mask, deny': Mask, allow: Mask)
    requires deny - allow == deny' - allow
    ensures Apply(p, deny, allow) == Apply(p, deny', allow)
  {
    forall b ensures b in Apply(p, deny, allow) <==> b in Apply(p, deny', allow) {
      assert b in deny - allow <==> b in deny' - allow;
    }
  }

  lemma FirstRoleIsEvery(roles: seq<Role>, id: string)
    requires RolesAgree(roles, id)
    ensures FirstRole(roles, id) == RolesWith(roles, [id])
  {
    FirstRoleMatches(roles, id);
    if r :| r in roles && r.id == id && r.permissions == FirstRole(roles, id) {
      var j :| 0 <= j < |roles| && roles[j] == r;
      forall x | x in roles && x.id == id ensures x.permissions == r.permissions {
        var i :| 0 <= i < |roles| && roles[i] == x;
      }
    }
  }

  /** Where matches agree the calculation is the closed form. */
  lemma CalculatedIsPermitted(g: Guild, overwrites: seq<Overwrite>, userID: string, memberRoles: seq<string>)
    requires MatchesAgree(g, overwrites, userID)
    ensures Calculated(g, overwrites, userID, memberRoles) == Permitted(g, overwrites, userID, memberRoles)
  {
    hide RolesWith, RoleDenies, RoleAllows, FirstRole, FirstOverwrite, Denied, Allowed, Apply, WithAdmin, RolesAgree,
      OverwritesAgree;
    FirstRoleIsEvery(g.roles, g.id);
    var p0 := FromRoles(g, memberRoles);
    FirstIsEvery(p0, overwrites, g.id, false);
    var p1 := Apply(p0, Denied(overwrites, g.id, false), Allowed(overwrites, g.id, false));
    var p2 := Apply(p1, RoleDenies(overwrites, memberRoles), RoleAllows(overwrites, memberRoles));
    FirstIsEvery(p2, overwrites, userID, true);
  }

  /** Then the order of roles, of the member's roles and of overwrites does not matter. */
  lemma OrderDoesNotMatter(g: Guild, overwrites: seq<Overwrite>, userID: string, memberRoles: seq<string>,
                           roles': seq<Role>, overwrites': seq<Overwrite>, memberRoles': seq<string>)
    requires MatchesAgree(g, overwrites, userID)
    requires multiset(roles') == multiset(g.roles) && multiset(overwrites') == multiset(overwrites)
    requires multiset(memberRoles') == multiset(memberRoles)
    ensures Calculated(g.(roles := roles'), overwrites', userID, memberRoles') == Calculated(g, overwrites, userID, memberRoles)
  {
    var g' := g.(roles := roles');
    SameElements(g.roles, roles');
    SameElements(overwrites, overwrites');
    SameElements(memberRoles, memberRoles');
    AgreementIsUnordered(g, overwrites, userID, roles', overwrites');
    CalculatedIsPermitted(g, overwrites, userID, memberRoles);
    CalculatedIsPermitted(g', overwrites', userID, memberRoles');
    assert RolesWith(roles', [g.id]) == RolesWith(g.roles, [g.id]);
    assert RolesWith(roles', memberRoles') == RolesWith(g.roles, memberRoles);
    assert RoleDenies(overwrites', memberRoles') == RoleDenies(overwrites, memberRoles);
    assert RoleAllows(overwrites', memberRoles') == RoleAllows(overwrites, memberRoles);
    assert Denied(overwrites', g.id, false) == Denied(overwrites, g.id, false);
    assert Allowed(overwrites', g.id, false) == Allowed(overwrites, g.id, false);
    assert Denied(overwrites', userID, true) == Denied(overwrites, userID, true);
    assert Allowed(overwrites', userID, true) == Allowed(overwrites, userID, true);
  }

  lemma AgreementIsUnordered(g: Guild, overwrites: seq<Overwrite>, userID: string, roles': seq<Role>, overwrites': seq<Overwrite>)
    requires MatchesAgree(g, overwrites, userID)
    requires (forall r | r in roles' :: r in g.roles) && (forall o | o in overwrites' :: o in overwrites)
    ensures MatchesAgree(g.(roles := roles'), overwrites', userID)
  {
    forall i | 0 <= i < |roles'| ensures exists k :: 0 <= k < |g.roles| && g.roles[k] == roles'[i] {
      assert roles'[i] in g.roles;
    }
    forall i | 0 <= i < |overwrites'| ensures exists k :: 0 <= k < |overwrites| && overwrites[k] == overwrites'[i] {
      assert overwrites'[i] in overwrites;
    }
  }

  // ---- When the order of a search matters ---------------------------------------------------------------

  /** The first match has the same effect on every mask in every order of the overwrites. */
  ghost predicate OverwriteOrderless(overwrites: seq<Overwrite>, id: string, memberOnly: bool) {
    forall p: Mask, overwrites': seq<Overwrite> | multiset(overwrites') == multiset(overwrites) ::
      Stage(p, overwrites', id, memberOnly) == Stage(p, overwrites, id, memberOnly)
  }

  /** What a search does to a mask. */
  function Stage(p: Mask, overwrites: seq<Overwrite>, id: string, memberOnly: bool): Mask {
    var o := FirstOverwrite(overwrites, id, memberOnly);
    Apply(p, o.deny, o.allow)
  }

  /** The order of overwrites does not matter to a search exactly when all its matches agree. */
  lemma OverwriteOrderMattersExactly(overwrites: seq<Overwrite>, id: string, memberOnly: bool)
    ensures OverwriteOrderless(overwrites, id, memberOnly) <==> OverwritesAgree(overwrites, id, memberOnly)
  {
    if OverwritesAgree(overwrites, id, memberOnly) {
      forall p: Mask, overwrites': seq<Overwrite> | multiset(overwrites') == multiset(overwrites)
        ensures Stage(p, overwrites', id, memberOnly) == Stage(p, overwrites, id, memberOnly)
      {
        SameElements(overwrites, overwrites');
        FirstAgrees(p, overwrites, overwrites', id, memberOnly);
      }
    }
    if OverwriteOrderless(overwrites, id, memberOnly) {
      forall i, j | 0 <= i < |overwrites| && 0 <= j < |overwrites| && For(overwrites[i], id, memberOnly)
                    && For(overwrites[j], id, memberOnly)
        ensures SameEffect(overwrites[i], overwrites[j])
      {
        MatchIsFirst(overwrites, id, memberOnly, i);
        MatchIsFirst(overwrites, id, memberOnly, j);
      }
    }
  }

  /** In two orders the first matches are matches of either, so they do the same. */
  lemma FirstAgrees(p: Mask, overwrites: seq<Overwrite>, overwrites': seq<Overwrite>, id: string, memberOnly: bool)
    requires OverwritesAgree(overwrites, id, memberOnly) && forall o :: o in overwrites <==> o in overwrites'
    ensures Stage(p, overwrites', id, memberOnly) == Stage(p, overwrites, id, memberOnly)
  {
    var o, o' := FirstOverwrite(overwrites, id, memberOnly), FirstOverwrite(overwrites', id, memberOnly);
    FirstOverwriteMatches(overwrites, id, memberOnly);
    FirstOverwriteMatches(overwrites', id, memberOnly);
    if o in overwrites && For(o, id, memberOnly) {
      var i :| 0 <= i < |overwrites| && overwrites[i] == o;
      var j :| 0 <= j < |overwrites| && overwrites[j] == o';
      assert SameEffect(overwrites[i], overwrites[j]);
      ApplySame(p, o.deny, o'.deny, o.allow);
    }
  }

  /** In some order any match comes first; masks then tell what it does. */
  lemma MatchIsFirst(overwrites: seq<Overwrite>, id: string, memberOnly: bool, i: nat)
    requires OverwriteOrderless(overwrites, id, memberOnly) && i < |overwrites| && For(overwrites[i], id, memberOnly)
    ensures SameEffect(overwrites[i], FirstOverwrite(overwrites, id, memberOnly))
  {
    var x, o := overwrites[i], FirstOverwrite(overwrites, id, memberOnly);
    hide MoveToFront;
    var overwrites' := MoveToFront(overwrites, i);
    assert FirstOverwrite(overwrites', id, memberOnly) == x;
    assert Stage({}, overwrites', id, memberOnly) == Stage({}, overwrites, id, memberOnly);
    var p := x.deny + o.deny;
    assert Stage(p, overwrites', id, memberOnly) == Stage(p, overwrites, id, memberOnly);
    EffectShows(x, o);
  }

  lemma EffectShows(x: Overwrite, o: Overwrite)
    requires Apply({}, x.deny, x.allow) == Apply({}, o.deny, o.allow)
    requires Apply(x.deny + o.deny, x.deny, x.allow) == Apply(x.deny + o.deny, o.deny, o.allow)
    ensures SameEffect(x, o)
  {
    assert x.allow == o.allow;
    forall b ensures b in x.deny - x.allow <==> b in o.deny - o.allow {
      assert b in Apply(x.deny + o.deny, x.deny, x.allow) <==> b in Apply(x.deny + o.deny, o.deny, o.allow);
    }
  }

  ghost predicate RoleOrderless(roles: seq<Role>, id: string) {
    forall roles': seq<Role> | multiset(roles') == multiset(roles) :: FirstRole(roles', id) == FirstRole(roles, id)
  }

  /** The order of roles does not matter to the search for @everyone's role exactly when all its matches agree. */
  lemma RoleOrderMattersExactly(roles: seq<Role>, id: string)
    ensures RoleOrderless(roles, id) <==> RolesAgree(roles, id)
  {
    if RolesAgree(roles, id) {
      forall roles': seq<Role> | multiset(roles') == multiset(roles)
        ensures FirstRole(roles', id) == FirstRole(roles, id)
      {
        SameElements(roles, roles');
        FirstRoleIsEvery(roles, id);
        AgreementIsUnordered(Guild(id, "", roles), [], "", roles', []);
        FirstRoleIsEvery(roles', id);
        assert RolesWith(roles', [id]) == RolesWith(roles, [id]);
      }
    }
    if RoleOrderless(roles, id) {
      forall i, j | 0 <= i < |roles| && 0 <= j < |roles| && roles[i].id == id && roles[j].id == id
        ensures roles[i].permissions == roles[j].permissions
      {
        RoleIsFirst(roles, id, i);
        RoleIsFirst(roles, id, j);
      }
    }
  }

  /** The same elements with one moved to the front. */
  function MoveToFront<T>(s: seq<T>, i: nat): (r: seq<T>)
    requires i < |s|
    ensures multiset(r) == multiset(s) && r != [] && r[0] == s[i]
  {
    assert s == s[..i] + [s[i]] + s[i + 1..];
    [s[i]] + (s[..i] + s[i + 1..])
  }

  lemma RoleIsFirst(roles: seq<Role>, id: string, i: nat)
    requires RoleOrderless(roles, id) && i < |roles| && roles[i].id == id
    ensures roles[i].permissions == FirstRole(roles, id)
  {
    hide MoveToFront;
    var roles' := MoveToFront(roles, i);
    assert FirstRole(roles', id) == roles[i].permissions;
  }

  lemma SameElements<T>(a: seq<T>, b: seq<T>)
    requires multiset(a) == multiset(b)
    ensures forall x :: x in a <==> x in b
  {
    forall x ensures x in a <==> x in b {
      assert x in a <==> x in multiset(a);
      assert x in b <==> x in multiset(b);
    }
  }

  /** Of two overwrites for @everyone the first one counts. */
  lemma FirstOfTwoCounts(a: Overwrite, b: Overwrite)
    requires a.id == b.id == "g" && a.deny == {} && ADMINISTRATOR !in a.allow
    ensures Calculated(Guild("g", "owner", []), [a, b], "user", []) == a.allow
  {
    var s := [a, b];
    assert |"g"| == 1 && |"user"| == 4 && |"owner"| == 5;
    assert s[1..] == [b] && [b][1..] == [];
    assert FirstOverwrite(s, "g", false) == a;
    assert FirstOverwrite(s, "user", true) == FirstOverwrite([b], "user", true) == FirstOverwrite([], "user", true);
    assert RoleDenies(s, []) == {} && RoleAllows(s, []) == {} && RolesWith([], []) == {};
    hide FirstOverwrite, RoleDenies, RoleAllows, RolesWith;
  }

  /** So two that differ make the order matter to the whole result. */
  lemma OrderMattersForDuplicates(a: Overwrite, b: Overwrite)
    requires a.id == b.id == "g" && a.deny == b.deny == {} && ADMINISTRATOR !in a.allow + b.allow && a.allow != b.allow
    ensures var g := Guild("g", "owner", []);
            Calculated(g, [a, b], "user", []) != Calculated(g, [b, a], "user", [])
  {
    hide Calculated;
    FirstOfTwoCounts(a, b);
    FirstOfTwoCounts(b, a);
  }

  /**
   Whoever has Administrator from roles keeps it, and with it every channel permission, if no overwrite that applies
   denies it; in general Administrator survives exactly when no later stage denies what no later stage allows again.
   */
  lemma AdministratorSurvivesExactly(g: Guild, overwrites: seq<Overwrite>, userID: string, memberRoles: seq<string>)
    requires MatchesAgree(g, overwrites, userID) && userID != g.ownerID && ADMINISTRATOR in FromRoles(g, memberRoles)
    ensures var p := Calculated(g, overwrites, userID, memberRoles);
            var own := Denied(overwrites, userID, true);
            && (ADMINISTRATOR in p <==>
                  || ADMINISTRATOR in Allowed(overwrites, userID, true)
                  || (ADMINISTRATOR !in own && ADMINISTRATOR in RoleAllows(overwrites, memberRoles))
                  || (ADMINISTRATOR !in own + RoleDenies(overwrites, memberRoles)
                      && (ADMINISTRATOR in Allowed(overwrites, g.id, false) || ADMINISTRATOR !in Denied(overwrites, g.id, false))))
            && (ADMINISTRATOR in p ==> ALL_CHANNEL <= p)
  {
    hide Calculated, FromRoles, RoleDenies, RoleAllows, Denied, Allowed, MatchesAgree;
    CalculatedIsPermitted(g, overwrites, userID, memberRoles);
  }
}
