/**
  The decision logic of ShibbolethAutoLogin as functions of the tenant's
  configuration, the session attributes and the store. Most Java methods are
  a function of the same name; `roleListToLongArray` and
  `getAllRolesWithConfiguredSubtype` have none, `Portal.RoleIds` and
  `Portal.Store.SubtypeRoles` playing their parts. A call that can throw
  yields an `Outcome`: the value it returned, or the exception it threw, with
  the store as the call left it either way (side effects made before a throw
  are kept). `HandleException` changes no store and gives a `Result`;
  `CreateRole` and `ResolveRole` give a `Resolution`: the role and the new
  store, or the reason the name is skipped.
 */
module ShibbolethSpec {
  import opened Wrappers
  import opened JavaLang
  import opened Portal

  // Session attribute names.
  const LOGIN := "login"
  const FIRSTNAME := "firstname"
  const SURNAME := "surname"
  const AFFILIATION := "affiliation"

  // Values of the tenant's auth type for a lookup by screen name and by email address.
  const AUTH_TYPE_SN := "screenName"
  const AUTH_TYPE_EA := "emailAddress"

  /** What cutString truncates screen names, email addresses and names to. */
  const MAX_FIELD_LENGTH: nat := 75

  /** The type given to a role created for an unknown affiliation name. */
  const NEW_ROLE_TYPE := 1

  /** What a role's subtype reads as when it was never set. */
  const UNSET_SUBTYPE := ""

  /** One tenant's (company's) configuration, as the configuration utility reports it. */
  datatype Tenant = Tenant(
    companyId: int,
    enabled: bool,
    authType: string,
    autoCreateUser: bool,
    autoUpdateUser: bool,
    importUser: bool,
    autoAssignUserRole: bool,
    roleSubtype: Option<string>,
    attributeUtf8Conversion: bool,
    userPasswordReset: bool,
    createRoleEnabled: bool)

  /** What the LDAP importer answers: a user, null, or the exception it throws. */
  datatype LdapAnswer = Imported(user: User) | NotImported | ImportFailed(error: Exception)

  /**
    Code the model cannot see: the ISO-8859-1 to UTF-8 re-encoding, the extra
    strings Validator.isNull counts as null, the LDAP importer's answer and the
    password the user service generates for a new account.
   */
  datatype Env = Env(
    reencode: string -> string,
    nullWord: string -> bool,
    ldap: LdapAnswer,
    generatedPassword: string)

  /** The HTTP session's attributes; a missing name reads as null. */
  type Session = map<string, string>

  /** A call that returned `value` or threw `error`, and the store it left. */
  datatype Outcome<T> = Returned(value: T, store: Store) | Threw(error: Exception, store: Store) {
    /** What the caller sees of the call, apart from the store. */
    function ToResult(): Result<T, Exception> {
      match this
      case Returned(v, _) => Success(v)
      case Threw(e, _) => Failure(e)
    }
  }

  /** The credentials the portal receives: user id, password, remember-me flag. */
  type Credentials = seq<string>

  /** The fixed profile values of every account this login creates. */
  const NEW_USER_DETAILS := AccountDetails(
    facebookId := 0, openId := "", locale := "de_DE", middleName := "",
    prefixId := 0, suffixId := 0, male := true,
    birthdayMonth := 0, birthdayDay := 1, birthdayYear := 1970, jobTitle := "")

  function Attribute(session: Session, name: string): Option<string> {
    if name in session then Some(session[name]) else None
  }

  /** Validator.isNull on a string: null, empty, or one of the platform's null words. */
  predicate IsNull(env: Env, s: Option<string>) {
    s.None? || s.value == [] || env.nullWord(s.value)
  }

  // ---------------------------------------------------------------------------
  // convertAttribute and cutString

  /** convertAttribute: re-encodes a non-null attribute when the tenant asks for UTF-8 conversion. */
  function ConvertAttribute(t: Tenant, env: Env, attribute: Option<string>): (r: Option<string>)
    ensures r.None? <==> attribute.None?
    ensures !t.attributeUtf8Conversion ==> r == attribute
    ensures attribute.Some? && t.attributeUtf8Conversion ==> r == Some(env.reencode(attribute.value))
  {
    if attribute.Some? && t.attributeUtf8Conversion then Some(env.reencode(attribute.value)) else attribute
  }

  /** cutString(field, maxlength): null stays null; a string is cut down to its first `maxLength` characters. */
  function CutStringTo(field: Option<string>, maxLength: nat): (r: Option<string>)
    ensures r.None? <==> field.None?
    ensures field.Some? ==> |r.value| <= maxLength && r.value <= field.value
    ensures field.Some? && |field.value| <= maxLength ==> r == field
    ensures field.Some? && |field.value| > maxLength ==> |r.value| == maxLength
  {
    if field.None? then None
    else if |field.value| <= maxLength then field
    else Some(field.value[..maxLength])
  }

  /** cutString(field): the truncation to 75 characters. */
  function CutString(field: Option<string>): Option<string> {
    CutStringTo(field, MAX_FIELD_LENGTH)
  }

  // ---------------------------------------------------------------------------
  // updateUserFromSession

  /** The user object after updateUserFromSession's setters, and its `modified` flag. */
  function UpdatedProfile(t: Tenant, env: Env, user: User, session: Session): (User, bool) {
    var firstname := CutString(ConvertAttribute(t, env, Attribute(session, FIRSTNAME)));
    var (u1, m1) :=
      if !IsNull(env, firstname) && user.firstName != firstname.value
      then (user.(firstName := firstname.value), true) else (user, false);
    var surname := CutString(ConvertAttribute(t, env, Attribute(session, SURNAME)));
    var (u2, m2) :=
      if !IsNull(env, surname) && u1.lastName != surname.value
      then (u1.(lastName := surname.value), true) else (u1, m1);
    (u2, m2)
  }

  /** updateUserFromSession: the updated user, persisted only when modified. */
  function UpdateUserFromSession(t: Tenant, env: Env, user: User, session: Session, st: Store): (User, Store) {
    var (u, modified) := UpdatedProfile(t, env, user, session);
    (u, if modified then st.UpdateUser(u) else st)
  }

  // ---------------------------------------------------------------------------
  // createUserFromSession and addUser

  /** The addUser call made for a new account: generated password, given screen name, no email sent. */
  function NewUserRequest(companyId: int, screenName: string, emailAddress: string,
                          firstName: string, lastName: string): AddUserRequest
  {
    AddUserRequest(
      creatorUserId := 0, companyId := companyId, autoPassword := true,
      password1 := None, password2 := None, autoScreenName := false,
      screenName := screenName, emailAddress := emailAddress,
      firstName := firstName, lastName := lastName,
      details := NEW_USER_DETAILS, sendEmail := false)
  }

  /** addUser: creates the account, then sets its password-reset flag from the tenant and persists it. */
  function AddUser(t: Tenant, env: Env, screenName: string, emailAddress: string,
                   firstName: string, lastName: string, st: Store): Outcome<User>
  {
    var req := NewUserRequest(t.companyId, screenName, emailAddress, firstName, lastName);
    match st.AddUser(req, env.generatedPassword)
    case Failure(e) => Threw(e, st)
    case Success(added) =>
      var user := added.0.(passwordReset := t.userPasswordReset);
      Returned(user, added.1.UpdateUser(user))
  }

  /** createUserFromSession: null when the converted screen name, first name or surname is null. */
  function CreateUserFromSession(t: Tenant, env: Env, session: Session, st: Store): Outcome<Option<User>> {
    var screenName := ConvertAttribute(t, env, Attribute(session, LOGIN));
    if IsNull(env, screenName) then Returned(None, st)
    else
      var firstname := ConvertAttribute(t, env, Attribute(session, FIRSTNAME));
      if IsNull(env, firstname) then Returned(None, st)
      else
        var surname := ConvertAttribute(t, env, Attribute(session, SURNAME));
        if IsNull(env, surname) then Returned(None, st)
        else
          match AddUser(t, env, CutString(screenName).value, CutString(Some("")).value,
                        CutString(firstname).value, CutString(surname).value, st)
          case Returned(u, st') => Returned(Some(u), st')
          case Threw(e, st') => Threw(e, st')
  }

  // ---------------------------------------------------------------------------
  // getRolesFromSession

  /** Why an affiliation name yields no role. */
  datatype SkipReason = CreationDisabled | CreationFailed(error: Exception)

  /** The role an affiliation name resolves to, with the store after it, or why the name is skipped. */
  datatype Resolution = Resolved(role: Role, store: Store) | Skipped(reason: SkipReason)

  /**
    The role created for a name not found in the company: id one past the
    largest id among the company's roles (Java long arithmetic), classNameId
    copied from the role holding that id, type 1, classPK the new id, and the
    configured subtype if that is non-empty. No company role, a null subtype
    or a taken primary key make the creation fail.
   */
  function CreateRole(t: Tenant, roleName: string, st: Store): Resolution {
    var roleIds := RoleIds(st.CompanyRoles(t.companyId));
    if roleIds == [] then Skipped(CreationFailed(ArrayIndexOutOfBounds))
    else
      var maxId := Max(roleIds);
      var newId := Inc(maxId);
      var classNameId := match st.RoleById(maxId) case Some(r) => r.classNameId case None => 0;
      match t.roleSubtype
      case None => Skipped(CreationFailed(NullPointer))
      case Some(subtype) =>
        var role := Role(newId, t.companyId, classNameId, newId, roleName, NEW_ROLE_TYPE,
                         if |subtype| != 0 then subtype else UNSET_SUBTYPE);
        match st.AddRole(role)
        case None => Skipped(CreationFailed(DuplicateRoleId))
        case Some(st') => Resolved(role, st')
  }

  /** One pass of the loop in getRolesFromSession: look the name up in the company, else create a role if enabled. */
  function ResolveRole(t: Tenant, roleName: string, st: Store): Resolution {
    match st.RoleByName(t.companyId, roleName)
    case Some(r) => Resolved(r, st)
    case None => if t.createRoleEnabled then CreateRole(t, roleName, st) else Skipped(CreationDisabled)
  }

  /** The loop of getRolesFromSession over `names`: the roles collected, in order, and the store after it. */
  function ResolveRoles(t: Tenant, names: seq<string>, st: Store): (seq<Role>, Store)
    decreases |names|
  {
    if names == [] then ([], st)
    else
      var (found, st') := ResolveRoles(t, names[..|names| - 1], st);
      match ResolveRole(t, names[|names| - 1], st')
      case Resolved(r, st'') => (found + [r], st'')
      case Skipped(_) => (found, st')
  }

  /** getRolesFromSession: the roles named by the affiliation attribute (not converted), split at commas. */
  function GetRolesFromSession(t: Tenant, env: Env, session: Session, st: Store): (seq<Role>, Store) {
    var affiliation := Attribute(session, AFFILIATION);
    if IsNull(env, affiliation) then ([], st)
    else ResolveRoles(t, Split(affiliation.value), st)
  }

  // ---------------------------------------------------------------------------
  // updateUserRolesFromSession

  /**
    updateUserRolesFromSession: resolves the session's roles, then unsets every
    role tagged with the configured subtype and assigns the resolved ones. A
    null user throws after the roles are resolved (and perhaps created).
   */
  function UpdateUserRolesFromSession(t: Tenant, env: Env, user: Option<User>, session: Session, st: Store): Outcome<()> {
    if !t.autoAssignUserRole then Returned((), st)
    else
      var (currentFelRoles, st1) := GetRolesFromSession(t, env, session, st);
      var felRoles := st1.SubtypeRoles(t.roleSubtype);
      match user
      case None => Threw(NullPointer, st1)
      case Some(u) =>
        Returned((), st1.UnsetUserRoles(u.userId, RoleIds(felRoles))
                        .AddUserRoles(u.userId, RoleIds(currentFelRoles)))
  }

  // ---------------------------------------------------------------------------
  // loginFromSession and login

  /** The lookup the tenant's auth type selects; None stands for NoSuchUserException (a miss or another auth type). */
  function FindUser(t: Tenant, login: string, st: Store): Option<User> {
    if t.authType == AUTH_TYPE_SN then st.UserByScreenName(t.companyId, login)
    else if t.authType == AUTH_TYPE_EA then st.UserByEmailAddress(t.companyId, login)
    else None
  }

  /** The role synchronisation that ends loginFromSession; anything it throws is swallowed. */
  function SyncRoles(t: Tenant, env: Env, user: Option<User>, session: Session, st: Store): Outcome<Option<User>> {
    Returned(user, UpdateUserRolesFromSession(t, env, user, session, st).store)
  }

  /**
    loginFromSession: finds the user by the raw login attribute; on a miss
    creates it, or imports it, or gives up; always synchronises roles
    afterwards, for a null user too.
   */
  function LoginFromSession(t: Tenant, env: Env, session: Session, st: Store): Outcome<Option<User>> {
    var login := Attribute(session, LOGIN);
    if IsNull(env, login) then Returned(None, st)
    else
      match FindUser(t, login.value, st)
      case Some(u) =>
        var (u', st') := if t.autoUpdateUser then UpdateUserFromSession(t, env, u, session, st) else (u, st);
        SyncRoles(t, env, Some(u'), session, st')
      case None =>
        if t.autoCreateUser then
          match CreateUserFromSession(t, env, session, st)
          case Threw(e, st') => Threw(e, st')
          case Returned(None, st') => Threw(NullPointer, st')
          case Returned(Some(u), st') => SyncRoles(t, env, Some(u), session, st')
        else if t.importUser then
          match env.ldap
          case Imported(u) => SyncRoles(t, env, Some(u), session, st)
          case NotImported => SyncRoles(t, env, None, session, st)
          case ImportFailed(e) => Threw(e, st)
        else SyncRoles(t, env, None, session, st)
  }

  /** The credentials handed to the portal for a user. */
  function CredentialsOf(u: User): Credentials {
    [ValueOf(u.userId), u.password, "true"]
  }

  /**
    login: nothing for a disabled tenant or when no user is obtained, the
    user's credentials otherwise; a NoSuchUserException also gives nothing,
    any other exception is rethrown wrapped in an AutoLoginException.
   */
  function Login(t: Tenant, env: Env, session: Session, st: Store): Outcome<Option<Credentials>> {
    if !t.enabled then Returned(None, st)
    else
      match LoginFromSession(t, env, session, st)
      case Returned(None, st') => Returned(None, st')
      case Returned(Some(u), st') => Returned(Some(CredentialsOf(u)), st')
      // loginFromSession catches its own lookup misses, so a NoSuchUserException
      // arrives here only from the directory importer
      case Threw(NoSuchUser, st') => Returned(None, st')
      case Threw(e, st') => Threw(AutoLoginException(e), st')
  }

  /** handleException: rethrows as an AutoLoginException unless the request carries a redirect. */
  function HandleException(env: Env, redirect: Option<string>, e: Exception): (r: Result<Option<Credentials>, Exception>)
    ensures r.Failure? <==> IsNull(env, redirect)
    ensures r.Failure? ==> r.error == AutoLoginException(e)
    ensures r.Success? ==> r.value == None
  {
    if IsNull(env, redirect) then Failure(AutoLoginException(e)) else Success(None)
  }
}
