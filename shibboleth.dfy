/**
  ShibbolethAutoLogin in the Java code's own step-by-step form, working on the
  mutable service layer. Every method except two is proved to return what the
  function of the same name in ShibbolethSpec returns and to leave the
  services in the state that function gives. The two are
  `RoleListToLongArray`, whose new array is specified slot by slot, and
  `GetAllRolesWithConfiguredSubtype`, specified by membership and against
  `Portal.Store.SubtypeRoles`.
 */
module Shibboleth {
  import opened Wrappers
  import opened JavaLang
  import opened Portal
  import Spec = ShibbolethSpec

  /** The fold ResolveRoles over one more name: the step the loop of getRolesFromSession takes. */
  lemma ResolveRolesSnoc(t: Spec.Tenant, names: seq<string>, i: nat, st0: Store)
    requires i < |names|
    ensures Spec.ResolveRoles(t, names[..i + 1], st0) ==
            var (found, st) := Spec.ResolveRoles(t, names[..i], st0);
            match Spec.ResolveRole(t, names[i], st)
            case Resolved(r, st') => (found + [r], st')
            case Skipped(_) => (found, st)
  {
    assert names[..i + 1][..i] == names[..i];
  }

  class ShibbolethAutoLogin {
    /** The user and role services every method reads and updates. */
    const services: Services

    constructor (services: Services)
      ensures this.services == services
    {
      this.services := services;
    }

    method Login(t: Spec.Tenant, env: Spec.Env, session: Spec.Session)
      returns (credentials: Result<Option<Spec.Credentials>, Exception>)
      modifies services
      ensures var o := Spec.Login(t, env, session, old(services.State()));
              credentials == o.ToResult() && services.State() == o.store
    {
      if !t.enabled {
        return Success(None);
      }
      var user := LoginFromSession(t, env, session);
      match user {
        case Success(None) =>
          credentials := Success(None);
        case Success(Some(u)) =>
          credentials := Success(Some(Spec.CredentialsOf(u)));
        case Failure(NoSuchUser) =>
          // only the directory importer lets one through
          credentials := Success(None);
        case Failure(e) =>
          credentials := Failure(AutoLoginException(e));
      }
    }

    method LoginFromSession(t: Spec.Tenant, env: Spec.Env, session: Spec.Session)
      returns (r: Result<Option<User>, Exception>)
      modifies services
      ensures var o := Spec.LoginFromSession(t, env, session, old(services.State()));
              r == o.ToResult() && services.State() == o.store
    {
      var login := Spec.Attribute(session, Spec.LOGIN);
      if Spec.IsNull(env, login) {
        return Success(None);
      }
      var user := Spec.FindUser(t, login.value, services.State());
      if user.Some? {
        if t.autoUpdateUser {
          var updated := UpdateUserFromSession(t, env, user.value, session);
          user := Some(updated);
        }
      } else if t.autoCreateUser {
        var created := CreateUserFromSession(t, env, session);
        if created.Failure? {
          return Failure(created.error);
        }
        if created.value.None? {
          // user.getUserId() on the null result
          return Failure(NullPointer);
        }
        user := created.value;
      } else if t.importUser {
        match env.ldap {
          case Imported(u) => user := Some(u);
          case NotImported => user := None;
          case ImportFailed(e) => return Failure(e);
        }
      }
      // any exception of the role synchronisation is swallowed
      var _ := UpdateUserRolesFromSession(t, env, user, session);
      return Success(user);
    }

    method CreateUserFromSession(t: Spec.Tenant, env: Spec.Env, session: Spec.Session)
      returns (r: Result<Option<User>, Exception>)
      modifies services
      ensures var o := Spec.CreateUserFromSession(t, env, session, old(services.State()));
              r == o.ToResult() && services.State() == o.store
    {
      var screenName := Spec.ConvertAttribute(t, env, Spec.Attribute(session, Spec.LOGIN));
      if Spec.IsNull(env, screenName) {
        return Success(None);
      }
      var emailAddress := "";
      var firstname := Spec.ConvertAttribute(t, env, Spec.Attribute(session, Spec.FIRSTNAME));
      if Spec.IsNull(env, firstname) {
        return Success(None);
      }
      var surname := Spec.ConvertAttribute(t, env, Spec.Attribute(session, Spec.SURNAME));
      if Spec.IsNull(env, surname) {
        return Success(None);
      }
      var added := AddUser(t, env, Spec.CutString(screenName).value, Spec.CutString(Some(emailAddress)).value,
                           Spec.CutString(firstname).value, Spec.CutString(surname).value);
      match added {
        case Success(u) => r := Success(Some(u));
        case Failure(e) => r := Failure(e);
      }
    }

    method AddUser(t: Spec.Tenant, env: Spec.Env, screenName: string, emailAddress: string,
                   firstName: string, lastName: string)
      returns (r: Result<User, Exception>)
      modifies services
      ensures var o := Spec.AddUser(t, env, screenName, emailAddress, firstName, lastName, old(services.State()));
              r == o.ToResult() && services.State() == o.store
    {
      var req := Spec.NewUserRequest(t.companyId, screenName, emailAddress, firstName, lastName);
      var added := services.AddUser(req, env.generatedPassword);
      if added.Failure? {
        return added;
      }
      var user := added.value;
      user := user.(passwordReset := false);
      if t.userPasswordReset {
        user := user.(passwordReset := true);
      }
      services.UpdateUser(user);
      return Success(user);
    }

    method UpdateUserFromSession(t: Spec.Tenant, env: Spec.Env, user: User, session: Spec.Session)
      returns (updated: User)
      modifies services
      ensures (updated, services.State()) ==
              Spec.UpdateUserFromSession(t, env, user, session, old(services.State()))
    {
      var modified := false;
      updated := user;
      var firstname := Spec.CutString(Spec.ConvertAttribute(t, env, Spec.Attribute(session, Spec.FIRSTNAME)));
      if !Spec.IsNull(env, firstname) && updated.firstName != firstname.value {
        updated := updated.(firstName := firstname.value);
        modified := true;
      }
      var surname := Spec.CutString(Spec.ConvertAttribute(t, env, Spec.Attribute(session, Spec.SURNAME)));
      if !Spec.IsNull(env, surname) && updated.lastName != surname.value {
        updated := updated.(lastName := surname.value);
        modified := true;
      }
      if modified {
        services.UpdateUser(updated);
      }
    }

    method UpdateUserRolesFromSession(t: Spec.Tenant, env: Spec.Env, user: Option<User>, session: Spec.Session)
      returns (r: Result<(), Exception>)
      modifies services
      ensures var o := Spec.UpdateUserRolesFromSession(t, env, user, session, old(services.State()));
              r == o.ToResult() && services.State() == o.store
    {
      if !t.autoAssignUserRole {
        return Success(());
      }
      var currentFelRoles := GetRolesFromSession(t, env, session);
      var currentFelRoleIds := RoleListToLongArray(currentFelRoles);
      var felRoles := GetAllRolesWithConfiguredSubtype(t);
      var felRoleIds := RoleListToLongArray(felRoles);
      assert currentFelRoleIds[..] == RoleIds(currentFelRoles);
      assert felRoleIds[..] == RoleIds(felRoles);
      if user.None? {
        return Failure(NullPointer);
      }
      services.UnsetUserRoles(user.value.userId, felRoleIds);
      services.AddUserRoles(user.value.userId, currentFelRoleIds);
      return Success(());
    }

    /** roleListToLongArray: the ids of the roles, in order, in a new array. */
    method RoleListToLongArray(roles: seq<Role>) returns (roleIds: array<Long>)
      ensures roleIds.Length == |roles|
      ensures forall i :: 0 <= i < |roles| ==> roleIds[i] == roles[i].roleId
    {
      roleIds := new Long[|roles|];
      for i := 0 to |roles|
        invariant forall k :: 0 <= k < i ==> roleIds[k] == roles[k].roleId
      {
        roleIds[i] := roles[i].roleId;
      }
    }

    /** getAllRolesWithConfiguredSubtype: all roles tagged with the tenant's subtype, of whatever company. */
    method GetAllRolesWithConfiguredSubtype(t: Spec.Tenant) returns (roles: seq<Role>)
      ensures forall r :: r in roles <==> r in services.roles && t.roleSubtype == Some(r.subtype)
      ensures roles == services.State().SubtypeRoles(t.roleSubtype)
    {
      roles := services.State().SubtypeRoles(t.roleSubtype);
    }

    /**
      The role creation inside getRolesFromSession's loop: the new role, or
      None where the Java code throws and the name is skipped.
     */
    method CreateRole(t: Spec.Tenant, roleName: string) returns (role: Option<Role>)
      modifies services
      ensures match Spec.CreateRole(t, roleName, old(services.State()))
              case Resolved(r, st) => role == Some(r) && services.State() == st
              case Skipped(_) => role == None && services.State() == old(services.State())
    {
      role := None;
      var roleList := services.State().CompanyRoles(t.companyId);
      var roleIds := RoleListToLongArray(roleList);
      assert roleIds[..] == RoleIds(roleList);
      // roleIds[roleIds.length - 1] on an empty array throws
      if roleIds.Length == 0 {
        return;
      }
      // the last element once the array is sorted
      var maxId := Max(roleIds[..]);
      var newId := Inc(maxId);
      var classNameId := 0;
      var maxRole := services.State().RoleById(maxId);
      if maxRole.Some? {
        classNameId := maxRole.value.classNameId;
      }
      // subtype.length() on a null subtype throws
      if t.roleSubtype.None? {
        return;
      }
      var subtype := t.roleSubtype.value;
      var newRole := Role(newId, t.companyId, classNameId, newId, roleName, Spec.NEW_ROLE_TYPE,
                          if |subtype| != 0 then subtype else Spec.UNSET_SUBTYPE);
      var added := services.AddRole(newRole);
      if added {
        role := Some(newRole);
      }
    }

    method GetRolesFromSession(t: Spec.Tenant, env: Spec.Env, session: Spec.Session)
      returns (currentFelRoles: seq<Role>)
      modifies services
      ensures (currentFelRoles, services.State()) ==
              Spec.GetRolesFromSession(t, env, session, old(services.State()))
    {
      currentFelRoles := [];
      var affiliation := Spec.Attribute(session, Spec.AFFILIATION);
      if Spec.IsNull(env, affiliation) {
        return;
      }
      var affiliationList := Split(affiliation.value);
      ghost var st0 := services.State();
      for i := 0 to |affiliationList|
        invariant (currentFelRoles, services.State()) == Spec.ResolveRoles(t, affiliationList[..i], st0)
      {
        var roleName := affiliationList[i];
        ghost var before := services.State();
        var role: Option<Role> := services.State().RoleByName(t.companyId, roleName);
        if role.None? && t.createRoleEnabled {
          role := CreateRole(t, roleName);
        }
        assert match Spec.ResolveRole(t, roleName, before)
               case Resolved(r, st) => role == Some(r) && services.State() == st
               case Skipped(_) => role == None && services.State() == before;
        ResolveRolesSnoc(t, affiliationList, i, st0);
        if role.Some? {
          currentFelRoles := currentFelRoles + [role.value];
        }
      }
      assert affiliationList[..|affiliationList|] == affiliationList;
    }
  }
}
