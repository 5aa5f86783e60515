/**
  The part of the portal's service layer the Shibboleth login talks to, reduced
  to in-memory tables: the user table, the role table and the user-role
  assignments. `Store` is their value; `Services` is the mutable service object
  whose methods stand for the persisting calls of the user and role services.
 */
module Portal {
  import opened Wrappers
  import opened JavaLang

  /** The exceptions the login path can meet. */
  datatype Exception =
    | NoSuchUser                // user lookup missed, unknown auth type, or thrown by the directory importer
    | DuplicateUserScreenName   // addUser: screen name already taken in the company
    | NullPointer               // a null user or null subtype dereferenced
    | ArrayIndexOutOfBounds     // the last element of an empty role-id array read
    | DuplicateRoleId           // addRole: the primary key is already taken
    | AutoLoginException(cause: Exception)

  /** The fixed-policy arguments of an account that are stored with it. */
  datatype AccountDetails = AccountDetails(
    facebookId: int, openId: string, locale: string, middleName: string,
    prefixId: int, suffixId: int, male: bool,
    birthdayMonth: int, birthdayDay: int, birthdayYear: int, jobTitle: string)

  datatype User = User(
    userId: int, companyId: int, screenName: string, emailAddress: string,
    password: string, firstName: string, lastName: string, passwordReset: bool,
    details: AccountDetails)

  /** The arguments of the user service's addUser call (the null id arrays and service context omitted). */
  datatype AddUserRequest = AddUserRequest(
    creatorUserId: int, companyId: int, autoPassword: bool,
    password1: Option<string>, password2: Option<string>, autoScreenName: bool,
    screenName: string, emailAddress: string, firstName: string, lastName: string,
    details: AccountDetails, sendEmail: bool)

  datatype Role = Role(
    roleId: Long, companyId: int, classNameId: int, classPK: Long,
    name: string, roleType: int, subtype: string)

  /** The first element of `s` that satisfies `p`. */
  function FirstMatch<T>(s: seq<T>, p: T -> bool): (r: Option<T>)
    ensures r.Some? ==> r.value in s && p(r.value)
    ensures r.Some? ==> exists i :: 0 <= i < |s| && s[i] == r.value && forall j :: 0 <= j < i ==> !p(s[j])
    ensures r.None? ==> forall x :: x in s ==> !p(x)
  {
    if s == [] then None else if p(s[0]) then Some(s[0]) else FirstMatch(s[1..], p)
  }

  /** The elements of `s` that satisfy `p`, in order. */
  function Filter<T(!new)>(s: seq<T>, p: T -> bool): (r: seq<T>)
    ensures forall x :: x in r <==> x in s && p(x)
  {
    if s == [] then []
    else (if p(s[0]) then [s[0]] else []) + Filter(s[1..], p)
  }

  /** The ids of a list of roles, in order. */
  function RoleIds(roles: seq<Role>): (ids: seq<Long>)
    ensures |ids| == |roles|
    ensures forall i :: 0 <= i < |roles| ==> ids[i] == roles[i].roleId
  {
    seq(|roles|, i requires 0 <= i < |roles| => roles[i].roleId)
  }

  datatype Store = Store(
    users: seq<User>, roles: seq<Role>, userRoles: map<int, set<Long>>, nextUserId: int)
  {
    /** Primary keys are unique, and the id counter is past every user id. */
    predicate Valid() {
      && (forall i, j :: 0 <= i < j < |users| ==> users[i].userId != users[j].userId)
      && (forall i :: 0 <= i < |users| ==> users[i].userId < nextUserId)
      && (forall i, j :: 0 <= i < j < |roles| ==> roles[i].roleId != roles[j].roleId)
    }

    function UserByScreenName(companyId: int, screenName: string): Option<User> {
      FirstMatch(users, (u: User) => u.companyId == companyId && u.screenName == screenName)
    }

    function UserByEmailAddress(companyId: int, emailAddress: string): Option<User> {
      FirstMatch(users, (u: User) => u.companyId == companyId && u.emailAddress == emailAddress)
    }

    /**
      addUser: refuses a screen name already used in the company, otherwise
      inserts the account under the next id from the counter. The password is
      the one the service generates (the request always asks for that).
     */
    function AddUser(req: AddUserRequest, generatedPassword: string): Result<(User, Store), Exception> {
      if UserByScreenName(req.companyId, req.screenName).Some? then Failure(DuplicateUserScreenName)
      else
        var u := User(nextUserId, req.companyId, req.screenName, req.emailAddress,
                      generatedPassword, req.firstName, req.lastName, false, req.details);
        Success((u, this.(users := users + [u], nextUserId := nextUserId + 1)))
    }

    /** updateUser: the stored record with `u`'s id becomes `u`. */
    function UpdateUser(u: User): Store {
      this.(users := seq(|users|, i requires 0 <= i < |users| =>
                           if users[i].userId == u.userId then u else users[i]))
    }

    function RoleByName(companyId: int, name: string): Option<Role> {
      FirstMatch(roles, (r: Role) => r.companyId == companyId && r.name == name)
    }

    function RoleById(roleId: Long): Option<Role> {
      FirstMatch(roles, (r: Role) => r.roleId == roleId)
    }

    /** getRoles(companyId): the roles of one company. */
    function CompanyRoles(companyId: int): (rs: seq<Role>)
      ensures forall r :: r in rs <==> r in roles && r.companyId == companyId
    {
      Filter(roles, (r: Role) => r.companyId == companyId)
    }

    /**
      getSubtypeRoles(subtype): the roles of EVERY company tagged with the
      subtype. A null subtype matches only roles whose subtype column is null,
      and no role here has a null subtype.
     */
    function SubtypeRoles(subtype: Option<string>): (rs: seq<Role>)
      ensures forall r :: r in rs <==> r in roles && subtype == Some(r.subtype)
    {
      match subtype
      case None => []
      case Some(s) => Filter(roles, (r: Role) => r.subtype == s)
    }

    /** addRole: inserts the role unless its primary key is taken. */
    function AddRole(r: Role): Option<Store> {
      if RoleById(r.roleId).Some? then None else Some(this.(roles := roles + [r]))
    }

    /** The ids of the roles assigned to a user. */
    function RolesOf(userId: int): set<Long> {
      if userId in userRoles then userRoles[userId] else {}
    }

    function UnsetUserRoles(userId: int, roleIds: seq<Long>): Store {
      this.(userRoles := userRoles[userId := RolesOf(userId) - set id | id in roleIds])
    }

    function AddUserRoles(userId: int, roleIds: seq<Long>): Store {
      this.(userRoles := userRoles[userId := RolesOf(userId) + set id | id in roleIds])
    }
  }

  /** The service layer as a mutable object over the three tables. */
  class Services {
    var users: seq<User>
    var roles: seq<Role>
    var userRoles: map<int, set<Long>>
    var nextUserId: int

    function State(): Store
      reads this
    {
      Store(users, roles, userRoles, nextUserId)
    }

    constructor (initial: Store)
      ensures State() == initial
    {
      users, roles, userRoles, nextUserId := initial.users, initial.roles, initial.userRoles, initial.nextUserId;
    }

    method SetState(st: Store)
      modifies this
      ensures State() == st
    {
      users, roles, userRoles, nextUserId := st.users, st.roles, st.userRoles, st.nextUserId;
    }

    method AddUser(req: AddUserRequest, generatedPassword: string) returns (r: Result<User, Exception>)
      modifies this
      ensures match old(State()).AddUser(req, generatedPassword)
              case Failure(e) => r == Failure(e) && State() == old(State())
              case Success(added) => r == Success(added.0) && State() == added.1
    {
      match State().AddUser(req, generatedPassword)
      case Failure(e) =>
        r := Failure(e);
      case Success(added) =>
        SetState(added.1);
        r := Success(added.0);
    }

    method UpdateUser(u: User)
      modifies this
      ensures State() == old(State()).UpdateUser(u)
    {
      SetState(State().UpdateUser(u));
    }

    method AddRole(role: Role) returns (added: bool)
      modifies this
      ensures match old(State()).AddRole(role)
              case None => !added && State() == old(State())
              case Some(st) => added && State() == st
    {
      var st := State().AddRole(role);
      added := st.Some?;
      if added {
        SetState(st.value);
      }
    }

    method UnsetUserRoles(userId: int, roleIds: array<Long>)
      modifies this
      ensures State() == old(State()).UnsetUserRoles(userId, old(roleIds[..]))
    {
      SetState(State().UnsetUserRoles(userId, roleIds[..]));
    }

    method AddUserRoles(userId: int, roleIds: array<Long>)
      modifies this
      ensures State() == old(State()).AddUserRoles(userId, old(roleIds[..]))
    {
      SetState(State().AddUserRoles(userId, roleIds[..]));
    }
  }
}
