# ShibbolethAutoLogin in Dafny

A model of the Liferay auto-login hook `ShibbolethAutoLogin`. When a request
arrives with a Shibboleth session, the hook reads the session attributes
`login`, `firstname`, `surname` and `affiliation`. Under the tenant's
(company's) configuration it then finds the matching portal account, or
creates or imports one. It can refresh the account's name. It reconciles the
account's roles with the comma-separated affiliation list, creating roles for
unknown names if the tenant allows it. Finally it hands the portal the
credentials `[userId, password, "true"]`, or nothing, or a failure.

Layout:

- `wrappers.dfy` (`Wrappers`): `Option` and `Result`.
- `java_lang.dfy` (`JavaLang`): the Java library behaviour the hook relies on:
  - `long` addition with wrap-around (`Inc`);
  - the largest element of a sorted `long[]` (`Max`);
  - `String.valueOf(long)` (`ValueOf`);
  - `String.split(",")` (`Split`), which drops trailing empty pieces and does not trim.
- `portal.dfy` (`Portal`): the portal's user and role services as in-memory tables:
  - `Store` is their value;
  - `Services` is the mutable service object whose methods stand for the persisting calls.
- `shibboleth_spec.dfy` (`ShibbolethSpec`): the hook's methods as functions of the tenant's configuration, the session and the store.
  - `roleListToLongArray` and `getAllRolesWithConfiguredSubtype` have no function of their own here: `Portal.RoleIds` and `Portal.Store.SubtypeRoles` play those parts.
  - `loginFromSession`, `createUserFromSession`, `addUser`, `updateUserRolesFromSession` and `login` give an `Outcome`: a value or an exception, together with the store as the call left it.
  - `handleException` gives a `Result`, since it changes no store.
  - The role creation and the lookup of one affiliation name (`CreateRole`, `ResolveRole`) give a `Resolution`: the role and the new store, or the reason the name is skipped.
- `shibboleth.dfy` (`Shibboleth`): the class `ShibbolethAutoLogin` in the Java code's step-by-step form, over a `Services` object.
  - Every method except two is proved to return what the same-named function returns and to leave the services in the state that function gives. This includes the loop of `getRolesFromSession`.
  - `RoleListToLongArray`, whose loop fills a new array, is specified slot by slot.
  - `GetAllRolesWithConfiguredSubtype` is specified by membership and against `Store.SubtypeRoles`.
- `role_properties.dfy` (`RoleProperties`) and `login_properties.dfy` (`LoginProperties`): the properties, proved as lemmas over the functions.

The model follows the code as written, including these quirks:

- **Raw login for lookup.** The account lookup uses the raw `login` attribute, but account creation uses the UTF-8-converted one (`ReencodedLoginWorksOnce`).
- **Affiliation not converted.** The `affiliation` attribute is never UTF-8-converted.
- **Role sync for a missing user.** Role synchronisation runs even when no user was obtained. It can create roles before it fails on the null user, and that failure is swallowed (`NoProvisioningNoAccount`).
- **Null new user.** When creation yields no user, the log statement at line 127 dereferences it. The resulting exception escapes as an `AutoLoginException`, not as "no opinion" (`NullNewUserFailsLogin`).
- **Subtype roles of every company.** The managed roles (`getSubtypeRoles`) are taken from every company, not just the tenant's.
- **Null subtype.** The test `subtype != null & subtype.length() != 0` uses the non-short-circuit `&`. A null subtype therefore throws, and that affiliation name is skipped.

Where this behaviour departs from the documented intent of the hook, the model follows the code:

- A missing first name, surname or screen name is meant to give "no opinion". In the code it gives a failure, through the dereference at line 127.
- UTF-8 re-encoding is meant to be able to fail. In the code, `new String(bytes, "UTF-8")` never throws, so the conversion is a total function.
- The redirect-based recovery is meant to be part of `login`. In the code it is the separate `handleException` method, modelled as `HandleException`.

Code the model cannot see is a parameter, the `Env` record:

- the ISO-8859-1 to UTF-8 re-encoding;
- the extra strings `Validator.isNull` counts as null;
- the LDAP importer's answer;
- the password the user service generates.

The tenant's configuration is the `Tenant` record.

## Model

All source paths are under `src/main/java/com/liferay/portal/security/auth/`.

| member | source | states |
|---|---|---|
| Shibboleth.ShibbolethAutoLogin.Login | src/main/java/com/liferay/portal/security/auth/ShibbolethAutoLogin.java:56-90 | returns what `Login` gives (credentials, nothing, or the wrapped exception) and leaves the services in its store |
| Shibboleth.ShibbolethAutoLogin.LoginFromSession | src/main/java/com/liferay/portal/security/auth/ShibbolethAutoLogin.java:92-141 | returns the user or exception `LoginFromSession` gives and leaves the services in that function's store |
| Shibboleth.ShibbolethAutoLogin.CreateUserFromSession | src/main/java/com/liferay/portal/security/auth/ShibbolethAutoLogin.java:146-177 | returns and stores exactly what `CreateUserFromSession` gives |
| Shibboleth.ShibbolethAutoLogin.AddUser | src/main/java/com/liferay/portal/security/auth/ShibbolethAutoLogin.java:200-245 | returns and stores exactly what `AddUser` gives (reset flag cleared, then set if configured, then persisted) |
| Shibboleth.ShibbolethAutoLogin.UpdateUserFromSession | src/main/java/com/liferay/portal/security/auth/ShibbolethAutoLogin.java:247-269 | the updated user and the services equal `UpdateUserFromSession`'s pair |
| Shibboleth.ShibbolethAutoLogin.UpdateUserRolesFromSession | src/main/java/com/liferay/portal/security/auth/ShibbolethAutoLogin.java:294-310 | result and new state equal `UpdateUserRolesFromSession`'s, including the throw on a null user after roles were resolved |
| Shibboleth.ShibbolethAutoLogin.RoleListToLongArray | src/main/java/com/liferay/portal/security/auth/ShibbolethAutoLogin.java:312-320 | the array has one slot per role, holding that role's id, in order |
| Shibboleth.ShibbolethAutoLogin.GetAllRolesWithConfiguredSubtype | src/main/java/com/liferay/portal/security/auth/ShibbolethAutoLogin.java:322-325 | a role is returned iff it is in the role table (of any company) and carries the configured subtype |
| Shibboleth.ShibbolethAutoLogin.GetRolesFromSession | src/main/java/com/liferay/portal/security/auth/ShibbolethAutoLogin.java:327-384 | the loop's roles and store equal `GetRolesFromSession` (the left fold `ResolveRoles` over the split affiliation) |
| Shibboleth.ShibbolethAutoLogin.CreateRole | src/main/java/com/liferay/portal/security/auth/ShibbolethAutoLogin.java:343-377 | the role-creation block of the loop: returns the role and store `CreateRole` gives, or none and no change where the Java code throws and skips the name |
| ShibbolethSpec.HandleException | src/main/java/com/liferay/portal/security/auth/ShibbolethAutoLogin.java:46-53 | fails iff the redirect attribute is null, with an `AutoLoginException` of the given cause; otherwise gives no credentials |
| ShibbolethSpec.ConvertAttribute | src/main/java/com/liferay/portal/security/auth/ShibbolethAutoLogin.java:285-292 | null iff the attribute is null; the attribute unchanged when conversion is off; the re-encoded attribute when conversion is on |
| ShibbolethSpec.CutStringTo | src/main/java/com/liferay/portal/security/auth/ShibbolethAutoLogin.java:179-195 | null iff null; otherwise a prefix of the input at most `maxLength` long, the input itself when it fits, exactly `maxLength` long when it does not |
| JavaLang.Inc | src/main/java/com/liferay/portal/security/auth/ShibbolethAutoLogin.java:348 | `newId + 1` in Java `long`: larger than the input below `Long.MAX_VALUE`, wraps below it at `Long.MAX_VALUE`; always equal to `x + 1` modulo 2^64 |
| JavaLang.Max | src/main/java/com/liferay/portal/security/auth/ShibbolethAutoLogin.java:346-347 | the last element after `Arrays.sort`: an element of the array no smaller than any other |
| JavaLang.ValueOfRoundTrip | src/main/java/com/liferay/portal/security/auth/ShibbolethAutoLogin.java:77 | the decimal text of the user id parses back to the id |
| JavaLang.ValueOfInjective | src/main/java/com/liferay/portal/security/auth/ShibbolethAutoLogin.java:77 | two ids with the same decimal text are equal |
| JavaLang.SplitSpec | src/main/java/com/liferay/portal/security/auth/ShibbolethAutoLogin.java:335 | no piece contains a comma; the pieces are the comma-separated fields minus trailing empty ones, the last kept piece is non-empty, and the fields join back to the input |
| JavaLang.SplitDropsTrailingEmpty | src/main/java/com/liferay/portal/security/auth/ShibbolethAutoLogin.java:335 | `"a,,b,"` splits to `["a","","b"]`: trailing empty pieces dropped, inner ones kept |
| JavaLang.SplitKeepsLeadingEmptyAndBlanks | src/main/java/com/liferay/portal/security/auth/ShibbolethAutoLogin.java:335 | `", a"` splits to `["", " a"]`: a leading empty piece is kept and blanks are not trimmed |
| JavaLang.SplitOfCommasOnly | src/main/java/com/liferay/portal/security/auth/ShibbolethAutoLogin.java:335 | `",,"` splits to no piece and `""` to one empty piece |
| Portal.Store.CompanyRoles | src/main/java/com/liferay/portal/security/auth/ShibbolethAutoLogin.java:344 | a role is listed iff it is in the table and belongs to the company |
| Portal.Store.SubtypeRoles | src/main/java/com/liferay/portal/security/auth/ShibbolethAutoLogin.java:324 | a role is listed iff it is in the table (any company) and the subtype is set and equals the role's |
| LoginProperties.StoreAddUserSpec | src/main/java/com/liferay/portal/security/auth/ShibbolethAutoLogin.java:228-231 | the service's addUser fails iff the screen name is taken in the company; otherwise it appends one account under a fresh id and keeps the store valid |
| LoginProperties.UpdateUserKeeps | src/main/java/com/liferay/portal/security/auth/ShibbolethAutoLogin.java:242 | writing back a changed copy of a stored account keeps the store valid and every account's id, company, screen name, email address and password |
| LoginProperties.AddUserSpec | src/main/java/com/liferay/portal/security/auth/ShibbolethAutoLogin.java:200-245 | throws exactly on a taken screen name, with no change; otherwise the one new account has the next id, the given names, the generated password, the fixed defaults (de_DE, male, 1970-01-01) and the tenant's reset flag, and is the only change |
| LoginProperties.CreateUserFromSessionNull | src/main/java/com/liferay/portal/security/auth/ShibbolethAutoLogin.java:149-168 | a null converted screen name, first name or surname gives no user and no change |
| LoginProperties.CreateUserFromSessionSpec | src/main/java/com/liferay/portal/security/auth/ShibbolethAutoLogin.java:146-177 | with all three present: a duplicate truncated screen name throws with no change; otherwise one account is appended whose screen name, first and last name are the prefixes of at most 75 characters (see `ShibbolethSpec.CutStringTo` under "## Left out"), whose email is blank and whose id is fresh |
| LoginProperties.UpdateUserFromSessionSpec | src/main/java/com/liferay/portal/security/auth/ShibbolethAutoLogin.java:247-269 | afterwards each name equals the session's non-null truncated value, or is unchanged when that is null; nothing else of the account changes; the store is written iff the user changed |
| LoginProperties.FindUserSpec | src/main/java/com/liferay/portal/security/auth/ShibbolethAutoLogin.java:101-112 | a found account is in the company and matches the raw login by screen name or email per auth type; nothing is found iff no account matches (always, for another auth type) |
| LoginProperties.SyncRolesSpec | src/main/java/com/liferay/portal/security/auth/ShibbolethAutoLogin.java:134-140 | the synchronisation returns the user whatever it meets inside, changes no account, only adds roles, and keeps the store valid |
| LoginProperties.LoginFromSessionSpec | src/main/java/com/liferay/portal/security/auth/ShibbolethAutoLogin.java:92-141 | throws only on the creation or import path: a null dereference or duplicate screen name when creating, exactly the importer's exception (store untouched) when importing; every path keeps the store valid and every existing account |
| LoginProperties.NoOpinionWithoutLogin | src/main/java/com/liferay/portal/security/auth/ShibbolethAutoLogin.java:67-99 | a disabled tenant or a null login gives no credentials and no change |
| LoginProperties.LoginSpec | src/main/java/com/liferay/portal/security/auth/ShibbolethAutoLogin.java:56-90 | credentials iff enabled and a user was obtained, and then they are `[id, password, "true"]`; a throw iff the resolution threw something other than `NoSuchUserException`, wrapped in `AutoLoginException` |
| LoginProperties.CredentialsIdentifyUser | src/main/java/com/liferay/portal/security/auth/ShibbolethAutoLogin.java:76-79 | equal first credentials mean equal user ids |
| LoginProperties.ExistingUserCredentials | src/main/java/com/liferay/portal/security/auth/ShibbolethAutoLogin.java:103-119 | a found account yields exactly `CredentialsOf` it, i.e. its own id, its stored password and "true", with or without the profile update |
| LoginProperties.NoProvisioningNoAccount | src/main/java/com/liferay/portal/security/auth/ShibbolethAutoLogin.java:121-138 | with creation and import off, a miss gives no credentials, no new account and no assignment, but the roles the affiliation list creates remain |
| LoginProperties.NullNewUserFailsLogin | src/main/java/com/liferay/portal/security/auth/ShibbolethAutoLogin.java:124-127 | when creation yields no user, login fails with `AutoLoginException(NullPointerException)` and nothing changes |
| LoginProperties.ImporterExceptionOutcome | src/main/java/com/liferay/portal/security/auth/ShibbolethAutoLogin.java:128-131 | when the importer throws, nothing changes and role sync is skipped; a `NoSuchUserException` from it gives no credentials (the catch at line 82), any other exception fails the login wrapped in `AutoLoginException` |
| LoginProperties.ReencodedLoginWorksOnce | src/main/java/com/liferay/portal/security/auth/ShibbolethAutoLogin.java:96-149 | when re-encoding changes the login, the first login creates the account and the same session's next login fails with a duplicate-screen-name `AutoLoginException` |
| LoginProperties.LoginPreservesStore | src/main/java/com/liferay/portal/security/auth/ShibbolethAutoLogin.java:56-141 | every login keeps the store valid, deletes no user or role and keeps every existing account's identity and password |
| RoleProperties.CreateRoleSpec | src/main/java/com/liferay/portal/security/auth/ShibbolethAutoLogin.java:343-369 | a role is created iff the company has roles, a subtype is set and the next id is free; its id is one past the company's largest (Java long), clashes with no id, and it has type 1, classPK = id, the name, the subtype and the classNameId of the largest-id role; only the role table grows |
| RoleProperties.NextRoleIdExample | src/main/java/com/liferay/portal/security/auth/ShibbolethAutoLogin.java:344-349 | a company with role ids 5, 7, 10 gets a new role with id 11 |
| RoleProperties.ResolveRoleStep | src/main/java/com/liferay/portal/security/auth/ShibbolethAutoLogin.java:337-380 | a name's role belongs to the company, has that name and is in the table; only roles are added |
| RoleProperties.ResolveRolesSound | src/main/java/com/liferay/portal/security/auth/ShibbolethAutoLogin.java:335-381 | the loop only appends roles, keeps the store valid, and yields roles of the company, in the table, named in the list |
| RoleProperties.ResolveRolesComplete | src/main/java/com/liferay/portal/security/auth/ShibbolethAutoLogin.java:336-380 | a listed name that names an existing company role is among the roles yielded |
| RoleProperties.ResolveRolesConcat | src/main/java/com/liferay/portal/security/auth/ShibbolethAutoLogin.java:336-381 | resolving a concatenated list resolves the first part, then the second from the store that left |
| RoleProperties.SkippedNameIsDropped | src/main/java/com/liferay/portal/security/auth/ShibbolethAutoLogin.java:371-377 | a name that cannot be resolved leaves the loop's result as if it were not listed |
| RoleProperties.GetRolesFromSessionSound | src/main/java/com/liferay/portal/security/auth/ShibbolethAutoLogin.java:327-384 | a null affiliation yields nothing and no change; otherwise only roles are added and each yielded role is a company role named in the split list |
| RoleProperties.UpdateUserRolesSpec | src/main/java/com/liferay/portal/security/auth/ShibbolethAutoLogin.java:294-310 | disabled: no change; null user: throws after resolving, assignments unchanged; otherwise the user's roles become old minus managed plus desired and no other user's change |
| RoleProperties.ReconciledRoles | src/main/java/com/liferay/portal/security/auth/ShibbolethAutoLogin.java:302-306 | afterwards the managed roles held are exactly the desired managed ones, all desired roles are held, other roles are as before |
| RoleProperties.ListedRoleAssigned | src/main/java/com/liferay/portal/security/auth/ShibbolethAutoLogin.java:299-306 | a listed name of an existing company role ends up assigned to the user |

## Left out

- Logging, the servlet request and response objects, and sessions: a session is a map from attribute name to string, and a missing name reads as null.
- The LDAP importer (`PortalLDAPImporterUtil.importLDAPUser`): its answer is a parameter (a user, null, or the exception it throws). Whatever it writes to the store is not modelled.
- ShibbolethSpec.CutStringTo: lengths count Unicode scalar values, not the UTF-16 code units of Java's `length()` and `substring`. For text outside the Basic Multilingual Plane, Java keeps fewer characters than the model and can split a surrogate pair. The 75-character bounds in `CreateUserFromSessionSpec` and `UpdateUserFromSessionSpec` count scalar values in the same way.
- The user service's own behaviour beyond a unique screen name per company and ids from a counter. Not modelled: email generation for a blank address, screen-name validation, case-insensitive lookups, and any other exception it may throw. A store failure other than a duplicate screen name or a taken role id is not modelled.
- The character-set conversion itself: the ISO-8859-1 to UTF-8 re-encoding is an opaque total function. Which strings `Validator.isNull` counts as null, besides null and empty, is an opaque predicate.
- A null auth type, which throws at line 104: the auth type is a non-null string. Any value other than the two constants finds no user.
- A null role subtype column in the store: `getSubtypeRoles(null)` gives no roles, since every stored role carries a (possibly empty) subtype string. A subtype never set on a new role reads as the empty string.
- The properties of a new role that are set to null or left unset (description, title map), the null id arrays and the null service context passed to `addUser`, and the unused `AddUserRequest` password fields. The service always uses the password it generates, which matches the request's `autoPassword = true`.
- Users and roles are values in tables, not shared objects: the aliasing of the Java `User` object between the caller and the service is not modelled.
- Concurrency: two logins for the same session running at once are not modelled.
