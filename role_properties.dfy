/**
  What the role synchronisation of ShibbolethAutoLogin guarantees: how a role
  is created for an unknown affiliation name, that a name that cannot be
  resolved only drops out of the list, and how the user's roles are
  reconciled with the managed and the desired roles.
 */
module RoleProperties {
  import opened Wrappers
  import opened JavaLang
  import opened Portal
  import opened ShibbolethSpec

  /** `st'` differs from `st` only by roles appended to the role table. */
  predicate OnlyRolesAdded(st: Store, st': Store) {
    && st'.users == st.users
    && st'.userRoles == st.userRoles
    && st'.nextUserId == st.nextUserId
    && st.roles <= st'.roles
  }

  /** The ids of a list of roles, as a set. */
  function IdSet(roles: seq<Role>): set<Long> {
    set r | r in roles :: r.roleId
  }

  /** The ids of the roles the synchronisation manages: every role tagged with the tenant's subtype. */
  function ManagedIds(t: Tenant, st: Store): set<Long> {
    set r | r in st.roles && t.roleSubtype == Some(r.subtype) :: r.roleId
  }

  lemma RoleIdsAsSet(roles: seq<Role>)
    ensures (set id | id in RoleIds(roles)) == IdSet(roles)
  {
    var ids := RoleIds(roles);
    forall id | id in ids ensures id in IdSet(roles) {
      var i :| 0 <= i < |ids| && ids[i] == id;
      assert roles[i] in roles;
    }
    forall id | id in IdSet(roles) ensures id in ids {
      var r :| r in roles && r.roleId == id;
      var i :| 0 <= i < |roles| && roles[i] == r;
      assert ids[i] == id;
    }
  }

  // ---------------------------------------------------------------------------
  // Creating a role

  /**
    A role is created exactly when the company has a role, a subtype is
    configured and the next id is free. The new role's id is one past the
    largest id among the company's roles (so larger than all of them unless
    that maximum is Long.MAX_VALUE, where Java wraps), it collides with no
    existing id of any company, and it has type 1, classPK = its id, the given
    name, the configured subtype and the classNameId of the role holding the
    largest id. Only the role table changes.
   */
  lemma CreateRoleSpec(t: Tenant, roleName: string, st: Store)
    ensures var ids := RoleIds(st.CompanyRoles(t.companyId));
            CreateRole(t, roleName, st).Resolved? <==>
              ids != [] && t.roleSubtype.Some? && st.RoleById(Inc(Max(ids))).None?
    ensures var ids := RoleIds(st.CompanyRoles(t.companyId));
            CreateRole(t, roleName, st).Resolved? ==>
              var r := CreateRole(t, roleName, st).role;
              && r.roleId == Inc(Max(ids))
              && (Max(ids) < LONG_MAX ==>
                    forall r0 :: r0 in st.roles && r0.companyId == t.companyId ==> r0.roleId < r.roleId)
              && (forall r0 :: r0 in st.roles ==> r0.roleId != r.roleId)
              && r.companyId == t.companyId
              && r.classPK == r.roleId
              && r.roleType == NEW_ROLE_TYPE
              && r.name == roleName
              && Some(r.subtype) == t.roleSubtype
              && st.RoleById(Max(ids)).Some?
              && r.classNameId == st.RoleById(Max(ids)).value.classNameId
              && CreateRole(t, roleName, st).store == st.(roles := st.roles + [r])
  {
    var rs := st.CompanyRoles(t.companyId);
    var ids := RoleIds(rs);
    if ids != [] {
      var m := Max(ids);
      var i :| 0 <= i < |ids| && ids[i] == m;
      assert rs[i] in rs;
      assert rs[i] in st.roles && rs[i].roleId == m;
      forall r0 | r0 in st.roles && r0.companyId == t.companyId ensures r0.roleId <= m {
        assert r0 in rs;
        var j :| 0 <= j < |rs| && rs[j] == r0;
        assert ids[j] == r0.roleId;
      }
    }
  }

  /** A filter that every element passes keeps the whole list. */
  lemma {:induction false} FilterKeepsAll<T(!new)>(s: seq<T>, p: T -> bool)
    requires forall i :: 0 <= i < |s| ==> p(s[i])
    ensures Filter(s, p) == s
    decreases |s|
  {
    if s != [] {
      FilterKeepsAll(s[1..], p);
      assert [s[0]] + s[1..] == s;
    }
  }

  /** The role-id allocation of a company whose roles have ids 5, 7 and 10: the new role gets id 11. */
  lemma NextRoleIdExample(subtype: string, roleName: string)
    ensures
      var roles := [Role(5, 1, 0, 5, "A", 1, subtype), Role(7, 1, 0, 7, "B", 1, subtype), Role(10, 1, 0, 10, "C", 1, subtype)];
      var st := Store([], roles, map[], 1);
      var t := Tenant(1, true, AUTH_TYPE_SN, false, false, false, true, Some(subtype), false, false, true);
      CreateRole(t, roleName, st).Resolved? && CreateRole(t, roleName, st).role.roleId == 11
  {
    var roles := [Role(5, 1, 0, 5, "A", 1, subtype), Role(7, 1, 0, 7, "B", 1, subtype), Role(10, 1, 0, 10, "C", 1, subtype)];
    var st := Store([], roles, map[], 1);
    var t := Tenant(1, true, AUTH_TYPE_SN, false, false, false, true, Some(subtype), false, false, true);
    FilterKeepsAll(roles, (r: Role) => r.companyId == 1);
    assert st.CompanyRoles(1) == roles;
    var ids := RoleIds(roles);
    assert ids == [5, 7, 10];
    assert Max(ids) == 10;
    CreateRoleSpec(t, roleName, st);
  }

  // ---------------------------------------------------------------------------
  // Resolving the affiliation names

  /** One affiliation name: the role it yields belongs to the company, carries the name and is now in the table. */
  lemma ResolveRoleStep(t: Tenant, roleName: string, st: Store)
    ensures ResolveRole(t, roleName, st).Resolved? ==>
              var r := ResolveRole(t, roleName, st).role;
              var st' := ResolveRole(t, roleName, st).store;
              && OnlyRolesAdded(st, st')
              && r in st'.roles && r.companyId == t.companyId && r.name == roleName
              && (st.Valid() ==> st'.Valid())
  {
    if st.RoleByName(t.companyId, roleName).None? && t.createRoleEnabled {
      assert ResolveRole(t, roleName, st) == CreateRole(t, roleName, st);
      CreateRoleSpec(t, roleName, st);
      if CreateRole(t, roleName, st).Resolved? {
        var r := CreateRole(t, roleName, st).role;
        var st' := st.(roles := st.roles + [r]);
        assert r == st'.roles[|st.roles|];
        assert st.Valid() ==> st'.Valid() by {
          if st.Valid() {
            forall i, j | 0 <= i < j < |st'.roles| ensures st'.roles[i].roleId != st'.roles[j].roleId {
              if j == |st.roles| {
                assert st.roles[i] in st.roles;
              }
            }
          }
        }
      }
    }
  }

  /**
    Resolving a list of names only appends roles to the role table and keeps
    the store valid, and every role it yields is a role of the company, now
    in the table, whose name is one of the listed names.
   */
  lemma {:induction false} ResolveRolesSound(t: Tenant, names: seq<string>, st: Store)
    ensures OnlyRolesAdded(st, ResolveRoles(t, names, st).1)
    ensures st.Valid() ==> ResolveRoles(t, names, st).1.Valid()
    ensures forall r :: r in ResolveRoles(t, names, st).0 ==>
              r in ResolveRoles(t, names, st).1.roles && r.companyId == t.companyId && r.name in names
    decreases |names|
  {
    if names != [] {
      var pre := names[..|names| - 1];
      assert names == pre + [names[|names| - 1]];
      ResolveRolesSound(t, pre, st);
      var (found, st1) := ResolveRoles(t, pre, st);
      ResolveRoleStep(t, names[|names| - 1], st1);
    }
  }

  /**
    Every listed name that names a role of the company before the loop is
    resolved to a role of that name, whatever the other names do.
   */
  lemma {:induction false} ResolveRolesComplete(t: Tenant, names: seq<string>, st: Store, roleName: string)
    requires roleName in names
    requires exists r0 :: r0 in st.roles && r0.companyId == t.companyId && r0.name == roleName
    ensures exists r :: r in ResolveRoles(t, names, st).0 && r.companyId == t.companyId && r.name == roleName
    decreases |names|
  {
    var pre := names[..|names| - 1];
    var last := names[|names| - 1];
    assert names == pre + [last];
    ResolveRolesSound(t, pre, st);
    var (found, st1) := ResolveRoles(t, pre, st);
    if roleName in pre {
      ResolveRolesComplete(t, pre, st, roleName);
      var r :| r in found && r.companyId == t.companyId && r.name == roleName;
      assert r in ResolveRoles(t, names, st).0;
    } else {
      assert last == roleName;
      var r0 :| r0 in st.roles && r0.companyId == t.companyId && r0.name == roleName;
      assert r0 in st1.roles;
      var lookup := st1.RoleByName(t.companyId, roleName);
      assert lookup.Some?;
      assert ResolveRoles(t, names, st).0 == found + [lookup.value];
    }
  }

  /** Resolving a concatenation resolves the first part, then the second from the store the first left. */
  lemma {:induction false} ResolveRolesConcat(t: Tenant, pre: seq<string>, post: seq<string>, st: Store)
    ensures ResolveRoles(t, pre + post, st) ==
            var (found1, st1) := ResolveRoles(t, pre, st);
            var (found2, st2) := ResolveRoles(t, post, st1);
            (found1 + found2, st2)
    decreases |post|
  {
    if post == [] {
      assert pre + post == pre;
      var (found1, st1) := ResolveRoles(t, pre, st);
      assert ResolveRoles(t, post, st1) == ([], st1);
      assert found1 + [] == found1;
    } else {
      var post' := post[..|post| - 1];
      var last := post[|post| - 1];
      ResolveRolesConcat(t, pre, post', st);
      assert (pre + post)[..|pre + post| - 1] == pre + post';
      assert (pre + post)[|pre + post| - 1] == last;
      var (found1, st1) := ResolveRoles(t, pre, st);
      var (found2, st2) := ResolveRoles(t, post', st1);
      assert ResolveRoles(t, pre + post', st) == (found1 + found2, st2);
      match ResolveRole(t, last, st2)
      case Resolved(r, st3) =>
        assert ResolveRoles(t, post, st1) == (found2 + [r], st3);
        assert ResolveRoles(t, pre + post, st) == ((found1 + found2) + [r], st3);
        assert (found1 + found2) + [r] == found1 + (found2 + [r]);
      case Skipped(_) =>
        assert ResolveRoles(t, post, st1) == (found2, st2);
        assert ResolveRoles(t, pre + post, st) == (found1 + found2, st2);
    }
  }

  /**
    A name that cannot be resolved (not found and either creation disabled or
    creation failing) is skipped and nothing else: the loop over the whole
    list ends exactly as the loop over the list without that name.
   */
  lemma SkippedNameIsDropped(t: Tenant, pre: seq<string>, roleName: string, post: seq<string>, st: Store)
    requires ResolveRole(t, roleName, ResolveRoles(t, pre, st).1).Skipped?
    ensures ResolveRoles(t, pre + [roleName] + post, st) == ResolveRoles(t, pre + post, st)
  {
    assert (pre + [roleName])[..|pre|] == pre;
    assert ResolveRoles(t, pre + [roleName], st) == ResolveRoles(t, pre, st);
    ResolveRolesConcat(t, pre + [roleName], post, st);
    ResolveRolesConcat(t, pre, post, st);
  }

  /** getRolesFromSession in the same terms: only roles are added, and each one yielded is a company role named in the affiliation. */
  lemma GetRolesFromSessionSound(t: Tenant, env: Env, session: Session, st: Store)
    ensures OnlyRolesAdded(st, GetRolesFromSession(t, env, session, st).1)
    ensures st.Valid() ==> GetRolesFromSession(t, env, session, st).1.Valid()
    ensures IsNull(env, Attribute(session, AFFILIATION)) ==> GetRolesFromSession(t, env, session, st) == ([], st)
    ensures forall r :: r in GetRolesFromSession(t, env, session, st).0 ==>
              && r in GetRolesFromSession(t, env, session, st).1.roles
              && r.companyId == t.companyId
              && r.name in Split(Attribute(session, AFFILIATION).value)
  {
    var affiliation := Attribute(session, AFFILIATION);
    if !IsNull(env, affiliation) {
      ResolveRolesSound(t, Split(affiliation.value), st);
    }
  }

  // ---------------------------------------------------------------------------
  // Reconciling the user's roles

  /**
    updateUserRolesFromSession: a no-op when auto-assignment is off; with a
    null user it throws after resolving (and perhaps creating) roles, leaving
    every assignment as it was; otherwise the user ends up with the roles it
    had, minus every managed role, plus every resolved role, and no other
    user's roles change.
   */
  lemma UpdateUserRolesSpec(t: Tenant, env: Env, user: Option<User>, session: Session, st: Store)
    ensures !t.autoAssignUserRole ==> UpdateUserRolesFromSession(t, env, user, session, st) == Returned((), st)
    ensures t.autoAssignUserRole && user.None? ==>
              var st1 := GetRolesFromSession(t, env, session, st).1;
              UpdateUserRolesFromSession(t, env, user, session, st) == Threw(NullPointer, st1) &&
              OnlyRolesAdded(st, st1)
    ensures t.autoAssignUserRole && user.Some? ==>
              var (desired, st1) := GetRolesFromSession(t, env, session, st);
              var o := UpdateUserRolesFromSession(t, env, user, session, st);
              var uid := user.value.userId;
              && o.Returned?
              && o.store.users == st.users && o.store.roles == st1.roles && o.store.nextUserId == st.nextUserId
              && o.store.RolesOf(uid) == (st.RolesOf(uid) - ManagedIds(t, st1)) + IdSet(desired)
              && (forall other :: other != uid ==> o.store.RolesOf(other) == st.RolesOf(other))
    ensures st.Valid() ==> UpdateUserRolesFromSession(t, env, user, session, st).store.Valid()
  {
    GetRolesFromSessionSound(t, env, session, st);
    if t.autoAssignUserRole && user.Some? {
      var (desired, st1) := GetRolesFromSession(t, env, session, st);
      var felRoles := st1.SubtypeRoles(t.roleSubtype);
      RoleIdsAsSet(desired);
      RoleIdsAsSet(felRoles);
      assert IdSet(felRoles) == ManagedIds(t, st1);
    }
  }

  /**
    The reconciliation in terms of the user's role set: afterwards the user's
    managed roles are exactly the desired managed roles, every desired role is
    held, and a role neither managed nor desired is held exactly when it was
    held before ("unset managed" runs before "add desired").
   */
  lemma ReconciledRoles(t: Tenant, env: Env, u: User, session: Session, st: Store)
    requires t.autoAssignUserRole
    ensures var (desired, st1) := GetRolesFromSession(t, env, session, st);
            var before := st.RolesOf(u.userId);
            var after := UpdateUserRolesFromSession(t, env, Some(u), session, st).store.RolesOf(u.userId);
            var managed := ManagedIds(t, st1);
            && after * managed == IdSet(desired) * managed
            && IdSet(desired) <= after
            && (forall id :: id !in managed && id !in IdSet(desired) ==> (id in after <==> id in before))
  {
    UpdateUserRolesSpec(t, env, Some(u), session, st);
  }

  /**
    A listed affiliation name that names a role of the company ends up
    assigned to the user, however many other names fail to resolve.
   */
  lemma ListedRoleAssigned(t: Tenant, env: Env, u: User, session: Session, st: Store, roleName: string)
    requires t.autoAssignUserRole
    requires !IsNull(env, Attribute(session, AFFILIATION))
    requires roleName in Split(Attribute(session, AFFILIATION).value)
    requires exists r0 :: r0 in st.roles && r0.companyId == t.companyId && r0.name == roleName
    ensures var after := UpdateUserRolesFromSession(t, env, Some(u), session, st).store;
            exists r :: r in after.roles && r.companyId == t.companyId && r.name == roleName &&
              r.roleId in after.RolesOf(u.userId)
  {
    var names := Split(Attribute(session, AFFILIATION).value);
    ResolveRolesComplete(t, names, st, roleName);
    ReconciledRoles(t, env, u, session, st);
    var desired := GetRolesFromSession(t, env, session, st).0;
    var r :| r in desired && r.companyId == t.companyId && r.name == roleName;
    assert r.roleId in IdSet(desired);
    GetRolesFromSessionSound(t, env, session, st);
    UpdateUserRolesSpec(t, env, Some(u), session, st);
  }
}
