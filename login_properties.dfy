/**
  What login, loginFromSession, createUserFromSession and
  updateUserFromSession guarantee, stated over the functions of
  ShibbolethSpec.
 */
module LoginProperties {
  import opened Wrappers
  import opened JavaLang
  import opened Portal
  import opened ShibbolethSpec
  import opened RoleProperties

  /** Two records of the same account: id, company, screen name, email address and password agree. */
  predicate SameAccount(a: User, b: User) {
    && a.userId == b.userId
    && a.companyId == b.companyId
    && a.screenName == b.screenName
    && a.emailAddress == b.emailAddress
    && a.password == b.password
  }

  /**
    `st'` keeps everything of `st` a login may not take away: no user or role
    is removed, and every existing account keeps its id, company, screen name,
    email address and password.
   */
  predicate Extends(st: Store, st': Store) {
    && |st.users| <= |st'.users|
    && (forall i :: 0 <= i < |st.users| ==> SameAccount(st.users[i], st'.users[i]))
    && st.roles <= st'.roles
    && st.nextUserId <= st'.nextUserId
  }

  lemma ExtendsTransitive(st1: Store, st2: Store, st3: Store)
    requires Extends(st1, st2) && Extends(st2, st3)
    ensures Extends(st1, st3)
  {
  }

  // ---------------------------------------------------------------------------
  // The user store

  /** Writing back a changed copy of a stored account keeps the store valid and every account's identity. */
  lemma UpdateUserKeeps(st: Store, user: User, u: User)
    requires st.Valid() && user in st.users && SameAccount(user, u)
    ensures st.UpdateUser(u).Valid()
    ensures Extends(st, st.UpdateUser(u))
    ensures |st.UpdateUser(u).users| == |st.users|
  {
    var st' := st.UpdateUser(u);
    var k :| 0 <= k < |st.users| && st.users[k] == user;
    forall i | 0 <= i < |st.users| ensures SameAccount(st.users[i], st'.users[i]) {
      if st.users[i].userId == u.userId {
        assert i == k;
      }
    }
  }

  /** addUser on the store: a new account under the counter's id, appended; the store stays valid. */
  lemma StoreAddUserSpec(st: Store, req: AddUserRequest, pw: string)
    requires st.Valid()
    ensures st.AddUser(req, pw).Failure? <==> st.UserByScreenName(req.companyId, req.screenName).Some?
    ensures st.AddUser(req, pw).Success? ==>
              var (u, st') := st.AddUser(req, pw).value;
              && st'.Valid() && Extends(st, st')
              && st'.users == st.users + [u]
              && u.userId == st.nextUserId
              && (forall v :: v in st.users ==> v.userId != u.userId)
  {
  }

  // ---------------------------------------------------------------------------
  // updateUserFromSession

  /**
    After updateUserFromSession the first name (and likewise the last name)
    is the session's converted, truncated value whenever that is non-null,
    and is unchanged otherwise; nothing else of the account changes; and the
    user is written to the store exactly when it differs from what it was.
   */
  lemma UpdateUserFromSessionSpec(t: Tenant, env: Env, user: User, session: Session, st: Store)
    ensures var firstname := CutString(ConvertAttribute(t, env, Attribute(session, FIRSTNAME)));
            var surname := CutString(ConvertAttribute(t, env, Attribute(session, SURNAME)));
            var (u, st') := UpdateUserFromSession(t, env, user, session, st);
            && (!IsNull(env, firstname) ==> u.firstName == firstname.value && |u.firstName| <= MAX_FIELD_LENGTH)
            && (IsNull(env, firstname) ==> u.firstName == user.firstName)
            && (!IsNull(env, surname) ==> u.lastName == surname.value && |u.lastName| <= MAX_FIELD_LENGTH)
            && (IsNull(env, surname) ==> u.lastName == user.lastName)
            && u == user.(firstName := u.firstName, lastName := u.lastName)
            && st' == (if u != user then st.UpdateUser(u) else st)
  {
  }

  // ---------------------------------------------------------------------------
  // createUserFromSession and addUser

  /**
    addUser fails on a screen name taken in the company and otherwise
    appends one account with a fresh id, the given names, the generated
    password, the fixed profile defaults and the password-reset flag the
    tenant configures.
   */
  lemma AddUserSpec(t: Tenant, env: Env, screenName: string, emailAddress: string,
                    firstName: string, lastName: string, st: Store)
    requires st.Valid()
    ensures var o := AddUser(t, env, screenName, emailAddress, firstName, lastName, st);
            && (o.Threw? <==> st.UserByScreenName(t.companyId, screenName).Some?)
            && (o.Threw? ==> o == Threw(DuplicateUserScreenName, st))
            && (o.Returned? ==>
                  var u := o.value;
                  && u == User(st.nextUserId, t.companyId, screenName, emailAddress, env.generatedPassword,
                               firstName, lastName, t.userPasswordReset, NEW_USER_DETAILS)
                  && (forall v :: v in st.users ==> v.userId != u.userId)
                  && o.store == st.(users := st.users + [u], nextUserId := st.nextUserId + 1))
            && o.store.Valid() && Extends(st, o.store)
  {
    var req := NewUserRequest(t.companyId, screenName, emailAddress, firstName, lastName);
    StoreAddUserSpec(st, req, env.generatedPassword);
    if st.AddUser(req, env.generatedPassword).Success? {
      var (u0, st1) := st.AddUser(req, env.generatedPassword).value;
      var u := u0.(passwordReset := t.userPasswordReset);
      UpdateUserKeeps(st1, u0, u);
      ExtendsTransitive(st, st1, st1.UpdateUser(u));
      var users' := st1.UpdateUser(u).users;
      assert users' == st.users + [u] by {
        forall i | 0 <= i < |st.users| ensures users'[i] == st.users[i] {
          assert st1.users[i] == st.users[i];
        }
      }
    }
  }

  /** createUserFromSession gives no user, and changes nothing, when the converted screen name, first name or surname is null. */
  lemma CreateUserFromSessionNull(t: Tenant, env: Env, session: Session, st: Store)
    requires IsNull(env, ConvertAttribute(t, env, Attribute(session, LOGIN))) ||
             IsNull(env, ConvertAttribute(t, env, Attribute(session, FIRSTNAME))) ||
             IsNull(env, ConvertAttribute(t, env, Attribute(session, SURNAME)))
    ensures CreateUserFromSession(t, env, session, st) == Returned(None, st)
  {
  }

  /**
    With all three attributes present, createUserFromSession fails when the
    truncated screen name is taken in the company, and otherwise appends an
    account with a fresh id, the three fields truncated to 75 characters, a
    blank email address, the generated password, the fixed profile defaults
    and the password-reset flag the tenant configures.
   */
  lemma CreateUserFromSessionSpec(t: Tenant, env: Env, session: Session, st: Store)
    requires st.Valid()
    requires !IsNull(env, ConvertAttribute(t, env, Attribute(session, LOGIN)))
    requires !IsNull(env, ConvertAttribute(t, env, Attribute(session, FIRSTNAME)))
    requires !IsNull(env, ConvertAttribute(t, env, Attribute(session, SURNAME)))
    ensures var screenName := ConvertAttribute(t, env, Attribute(session, LOGIN)).value;
            var firstname := ConvertAttribute(t, env, Attribute(session, FIRSTNAME)).value;
            var surname := ConvertAttribute(t, env, Attribute(session, SURNAME)).value;
            var o := CreateUserFromSession(t, env, session, st);
            if st.UserByScreenName(t.companyId, CutString(Some(screenName)).value).Some? then
              o == Threw(DuplicateUserScreenName, st)
            else
              && o.Returned? && o.value.Some?
              && var u := o.value.value;
              && u.userId == st.nextUserId
              && (forall v :: v in st.users ==> v.userId != u.userId)
              && u.companyId == t.companyId
              && u.screenName == CutString(Some(screenName)).value
              && |u.screenName| <= MAX_FIELD_LENGTH && u.screenName <= screenName
              && u.emailAddress == ""
              && u.firstName == CutString(Some(firstname)).value
              && |u.firstName| <= MAX_FIELD_LENGTH && u.firstName <= firstname
              && u.lastName == CutString(Some(surname)).value
              && |u.lastName| <= MAX_FIELD_LENGTH && u.lastName <= surname
              && u.password == env.generatedPassword
              && u.passwordReset == t.userPasswordReset
              && u.details == NEW_USER_DETAILS
              && o.store == st.(users := st.users + [u], nextUserId := st.nextUserId + 1)
    ensures CreateUserFromSession(t, env, session, st).store.Valid()
    ensures Extends(st, CreateUserFromSession(t, env, session, st).store)
  {
    var screenName := ConvertAttribute(t, env, Attribute(session, LOGIN));
    var firstname := ConvertAttribute(t, env, Attribute(session, FIRSTNAME));
    var surname := ConvertAttribute(t, env, Attribute(session, SURNAME));
    AddUserSpec(t, env, CutString(screenName).value, CutString(Some("")).value,
                CutString(firstname).value, CutString(surname).value, st);
  }

  // ---------------------------------------------------------------------------
  // loginFromSession

  /** The lookup by auth type: the stored account matching the raw login, and none for any other auth type. */
  lemma FindUserSpec(t: Tenant, login: string, st: Store)
    ensures FindUser(t, login, st).Some? ==>
              var u := FindUser(t, login, st).value;
              && u in st.users && u.companyId == t.companyId
              && ((t.authType == AUTH_TYPE_SN && u.screenName == login) ||
                  (t.authType == AUTH_TYPE_EA && u.emailAddress == login))
    ensures FindUser(t, login, st).None? <==>
              && (t.authType == AUTH_TYPE_SN ==>
                    forall u :: u in st.users ==> !(u.companyId == t.companyId && u.screenName == login))
              && (t.authType == AUTH_TYPE_EA ==>
                    forall u :: u in st.users ==> !(u.companyId == t.companyId && u.emailAddress == login))
  {
  }

  /**
    The role synchronisation at the end of loginFromSession returns the user
    whatever happens inside it, touches no account and only adds roles.
   */
  lemma SyncRolesSpec(t: Tenant, env: Env, user: Option<User>, session: Session, st: Store)
    ensures var o := SyncRoles(t, env, user, session, st);
            && o == Returned(user, o.store)
            && o.store.users == st.users && o.store.nextUserId == st.nextUserId
            && st.roles <= o.store.roles
            && (st.Valid() ==> o.store.Valid())
            && (user.None? ==> o.store.userRoles == st.userRoles)
            && (user.None? && t.autoAssignUserRole ==> o.store == GetRolesFromSession(t, env, session, st).1)
            && (!t.autoAssignUserRole ==> o.store == st)
  {
    GetRolesFromSessionSound(t, env, session, st);
    UpdateUserRolesSpec(t, env, user, session, st);
  }

  /**
    loginFromSession only throws on the provisioning path: on the creation
    path a null dereference or a duplicate screen name, on the import path
    exactly what the importer throws, with the store untouched. On every path
    it keeps the store valid and every existing account's identity.
   */
  lemma LoginFromSessionSpec(t: Tenant, env: Env, session: Session, st: Store)
    requires st.Valid()
    ensures var o := LoginFromSession(t, env, session, st);
            && (o.Threw? ==> t.autoCreateUser || t.importUser)
            && (o.Threw? && t.autoCreateUser ==> o.error in {NullPointer, DuplicateUserScreenName})
            && (o.Threw? && !t.autoCreateUser ==> env.ldap == ImportFailed(o.error) && o.store == st)
            && o.store.Valid() && Extends(st, o.store)
  {
    var login := Attribute(session, LOGIN);
    if !IsNull(env, login) {
      match FindUser(t, login.value, st)
      case Some(u) =>
        FindUserSpec(t, login.value, st);
        FoundUserPath(t, env, u, session, st);
      case None =>
        if t.autoCreateUser {
          if IsNull(env, ConvertAttribute(t, env, Attribute(session, LOGIN))) ||
             IsNull(env, ConvertAttribute(t, env, Attribute(session, FIRSTNAME))) ||
             IsNull(env, ConvertAttribute(t, env, Attribute(session, SURNAME))) {
            CreateUserFromSessionNull(t, env, session, st);
          } else {
            CreateUserFromSessionSpec(t, env, session, st);
            var c := CreateUserFromSession(t, env, session, st);
            if c.Returned? {
              assert LoginFromSession(t, env, session, st) == SyncRoles(t, env, c.value, session, c.store);
              SyncedStore(t, env, c.value, session, st, c.store);
            }
          }
        } else if t.importUser {
          match env.ldap
          case Imported(u) => SyncedStore(t, env, Some(u), session, st, st);
          case NotImported => SyncedStore(t, env, None, session, st, st);
          case ImportFailed(_) =>
        } else {
          SyncedStore(t, env, None, session, st, st);
        }
    }
  }

  /** The path of loginFromSession for a found account: the optional update, then the role synchronisation. */
  lemma FoundUserPath(t: Tenant, env: Env, u: User, session: Session, st: Store)
    requires st.Valid() && u in st.users
    ensures var (u', st') := if t.autoUpdateUser then UpdateUserFromSession(t, env, u, session, st) else (u, st);
            var o := SyncRoles(t, env, Some(u'), session, st');
            o.Returned? && o.store.Valid() && Extends(st, o.store)
  {
    var (u', st') := if t.autoUpdateUser then UpdateUserFromSession(t, env, u, session, st) else (u, st);
    if t.autoUpdateUser {
      UpdateUserFromSessionSpec(t, env, u, session, st);
      if u' != u {
        UpdateUserKeeps(st, u, u');
      }
    }
    SyncedStore(t, env, Some(u'), session, st, st');
  }

  /** The role synchronisation keeps a store valid and extending the one the login started from. */
  lemma SyncedStore(t: Tenant, env: Env, user: Option<User>, session: Session, st0: Store, st: Store)
    requires st.Valid() && Extends(st0, st)
    ensures var o := SyncRoles(t, env, user, session, st);
            o.Returned? && o.store.Valid() && Extends(st0, o.store)
  {
    SyncRolesSpec(t, env, user, session, st);
    ExtendsTransitive(st0, st, SyncRoles(t, env, user, session, st).store);
  }

  // ---------------------------------------------------------------------------
  // login

  /** A disabled tenant, or a session without a (non-null) login attribute: no credentials and no change at all. */
  lemma NoOpinionWithoutLogin(t: Tenant, env: Env, session: Session, st: Store)
    requires !t.enabled || IsNull(env, Attribute(session, LOGIN))
    ensures Login(t, env, session, st) == Returned(None, st)
  {
  }

  /**
    login gives credentials exactly when the tenant is enabled and
    loginFromSession obtains a user, and then they are that user's id, its
    password and "true"; it throws exactly when loginFromSession throws
    anything but a NoSuchUserException, wrapping it in an AutoLoginException.
   */
  lemma LoginSpec(t: Tenant, env: Env, session: Session, st: Store)
    ensures var o := Login(t, env, session, st);
            var r := LoginFromSession(t, env, session, st);
            && ((o.Returned? && o.value.Some?) <==> (t.enabled && r.Returned? && r.value.Some?))
            && (t.enabled && r.Returned? && r.value.Some? ==>
                  o.value.value == CredentialsOf(r.value.value))
            && (o.Threw? <==> t.enabled && r.Threw? && r.error != NoSuchUser)
            && (o.Threw? ==> o.error == AutoLoginException(r.error))
            && (t.enabled ==> o.store == r.store)
  {
  }

  /** Distinct users get distinct credentials: the first credential string determines the user id. */
  lemma CredentialsIdentifyUser(u: User, v: User)
    ensures CredentialsOf(u)[0] == CredentialsOf(v)[0] ==> u.userId == v.userId
  {
    ValueOfInjective(u.userId, v.userId);
  }

  /**
    For an account found by the tenant's auth type, login returns exactly
    [its id, its stored password, "true"] (a profile update never touches
    id or password).
   */
  lemma ExistingUserCredentials(t: Tenant, env: Env, session: Session, st: Store, u: User)
    requires t.enabled && !IsNull(env, Attribute(session, LOGIN))
    requires FindUser(t, Attribute(session, LOGIN).value, st) == Some(u)
    ensures Login(t, env, session, st).Returned?
    ensures Login(t, env, session, st).value == Some(CredentialsOf(u))
    ensures CredentialsOf(u) == [ValueOf(u.userId), u.password, "true"]
  {
    if t.autoUpdateUser {
      UpdateUserFromSessionSpec(t, env, u, session, st);
      var (u', st') := UpdateUserFromSession(t, env, u, session, st);
      SyncRolesSpec(t, env, Some(u'), session, st');
    } else {
      SyncRolesSpec(t, env, Some(u), session, st);
    }
  }

  /**
    With account creation and LDAP import both off, a login that finds no
    account (a miss, or an auth type other than screen name or email) gives
    no credentials and creates no account and no assignment; the role
    synchronisation still runs for the null user, so roles for unknown
    affiliation names may be created.
   */
  lemma NoProvisioningNoAccount(t: Tenant, env: Env, session: Session, st: Store)
    requires t.enabled && !t.autoCreateUser && !t.importUser
    requires IsNull(env, Attribute(session, LOGIN)) ||
             FindUser(t, Attribute(session, LOGIN).value, st).None?
    ensures var o := Login(t, env, session, st);
            && o.Returned? && o.value == None
            && o.store.users == st.users && o.store.nextUserId == st.nextUserId
            && o.store.userRoles == st.userRoles
            && o.store == if t.autoAssignUserRole && !IsNull(env, Attribute(session, LOGIN))
                          then GetRolesFromSession(t, env, session, st).1 else st
  {
    if !IsNull(env, Attribute(session, LOGIN)) {
      SyncRolesSpec(t, env, None, session, st);
    }
  }

  /**
    When account creation yields no user (the converted screen name, first
    name or surname is null), the dereference at the end of the creation
    branch throws: login fails with an AutoLoginException instead of giving
    nothing, and the role synchronisation does not run.
   */
  lemma NullNewUserFailsLogin(t: Tenant, env: Env, session: Session, st: Store)
    requires t.enabled && t.autoCreateUser && !IsNull(env, Attribute(session, LOGIN))
    requires FindUser(t, Attribute(session, LOGIN).value, st).None?
    requires IsNull(env, ConvertAttribute(t, env, Attribute(session, LOGIN))) ||
             IsNull(env, ConvertAttribute(t, env, Attribute(session, FIRSTNAME))) ||
             IsNull(env, ConvertAttribute(t, env, Attribute(session, SURNAME)))
    ensures Login(t, env, session, st) == Threw(AutoLoginException(NullPointer), st)
  {
  }

  /**
    When the directory importer throws, the role synchronisation is skipped
    and nothing changes; a NoSuchUserException from it gives no credentials,
    any other exception fails the login wrapped in an AutoLoginException.
   */
  lemma ImporterExceptionOutcome(t: Tenant, env: Env, session: Session, st: Store)
    requires t.enabled && !t.autoCreateUser && t.importUser && !IsNull(env, Attribute(session, LOGIN))
    requires FindUser(t, Attribute(session, LOGIN).value, st).None?
    requires env.ldap.ImportFailed?
    ensures Login(t, env, session, st) ==
            if env.ldap.error == NoSuchUser then Returned(None, st)
            else Threw(AutoLoginException(env.ldap.error), st)
  {
  }

  /**
    The lookup uses the raw login while creation uses the converted one. So
    when re-encoding changes a login (and no account has either form as its
    screen name), the first login creates an account under the converted
    screen name, and the same session's next login misses it again, tries to
    create it again and fails with an AutoLoginException.
   */
  lemma ReencodedLoginWorksOnce(t: Tenant, env: Env, session: Session, st: Store)
    requires st.Valid()
    requires t.enabled && t.autoCreateUser && t.authType == AUTH_TYPE_SN && t.attributeUtf8Conversion
    requires LOGIN in session && !IsNull(env, Some(session[LOGIN]))
    requires !IsNull(env, ConvertAttribute(t, env, Attribute(session, LOGIN)))
    requires !IsNull(env, ConvertAttribute(t, env, Attribute(session, FIRSTNAME)))
    requires !IsNull(env, ConvertAttribute(t, env, Attribute(session, SURNAME)))
    requires CutString(Some(env.reencode(session[LOGIN]))).value != session[LOGIN]
    requires st.UserByScreenName(t.companyId, session[LOGIN]).None?
    requires st.UserByScreenName(t.companyId, CutString(Some(env.reencode(session[LOGIN]))).value).None?
    ensures var first := Login(t, env, session, st);
            && first.Returned? && first.value.Some?
            && Login(t, env, session, first.store) ==
               Threw(AutoLoginException(DuplicateUserScreenName), first.store)
  {
    var raw := session[LOGIN];
    var converted := CutString(Some(env.reencode(raw))).value;
    CreateUserFromSessionSpec(t, env, session, st);
    var c := CreateUserFromSession(t, env, session, st);
    var u := c.value.value;
    assert u.screenName == converted && u.companyId == t.companyId;
    SyncRolesSpec(t, env, Some(u), session, c.store);
    var st1 := SyncRoles(t, env, Some(u), session, c.store).store;
    assert LoginFromSession(t, env, session, st) == Returned(Some(u), st1);
    assert st1.users == st.users + [u];
    FirstSighting(t, raw, converted, u, st, st1);
    CreateUserFromSessionSpec(t, env, session, st1);
    assert LoginFromSession(t, env, session, st1) == Threw(DuplicateUserScreenName, st1);
  }

  /** After appending `u`, the raw login still finds no account, while the converted screen name finds one. */
  lemma FirstSighting(t: Tenant, raw: string, converted: string, u: User, st: Store, st1: Store)
    requires t.authType == AUTH_TYPE_SN
    requires st.UserByScreenName(t.companyId, raw).None?
    requires st1.users == st.users + [u]
    requires u.screenName == converted && u.companyId == t.companyId && converted != raw
    ensures FindUser(t, raw, st1).None?
    ensures st1.UserByScreenName(t.companyId, converted).Some?
  {
    FindUserSpec(t, raw, st1);
    assert u in st1.users;
  }

  /**
    Every login keeps the store valid (unique primary keys, a counter past
    every user id), deletes no user or role, and leaves every existing
    account's id, company, screen name, email address and password alone.
   */
  lemma LoginPreservesStore(t: Tenant, env: Env, session: Session, st: Store)
    requires st.Valid()
    ensures Login(t, env, session, st).store.Valid()
    ensures Extends(st, Login(t, env, session, st).store)
  {
    if t.enabled {
      LoginFromSessionSpec(t, env, session, st);
    }
  }
}
