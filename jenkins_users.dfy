/** User management against Jenkins. The Jenkins server holds accounts keyed by
    login and per-job permission grants. Artemis creates, updates and deletes
    accounts, checking first whether the login exists. Jenkins has no groups,
    so course groups become permissions on the jobs of the courses'
    programming exercises. */
module JenkinsUserManagement {
  import opened Wrappers

  /** The Artemis user: its login, its profile, its password in clear (the
      decryption is not part of this model) and its groups. */
  datatype User = User(login: string, name: string, email: string, password: string, groups: set<string>)

  /** What a Jenkins account stores of a user. */
  datatype Account = Account(fullName: string, email: string, password: string)

  /** The account that the create and update forms describe. */
  function AccountOf(user: User): Account {
    Account(user.name, user.email, user.password)
  }

  /** A programming exercise as the group rule sees it: its project key, which
      is also the name of its Jenkins job, and the group names of its course. */
  datatype ProgrammingExercise = ProgrammingExercise(projectKey: string, instructorGroup: string,
                                                     teachingAssistantGroup: string)

  datatype Role = Instructor | TeachingAssistant

  /** The permissions each role is granted on a job. The permission service that
      fixes them is not part of this model, so they are a parameter of the server. */
  datatype RolePermissions = RolePermissions(instructor: set<string>, teachingAssistant: set<string>)

  /** The user `login` holds `permission` on the job `job`. */
  datatype Grant = Grant(login: string, job: string, permission: string)

  /** What escapes the service: its own `JenkinsException`, or a
      `RestClientException` other than a client error that a user lookup lets
      through unwrapped. */
  datatype Failure = JenkinsException(message: string) | RestClientException

  /** How the server answers a user lookup: with the user's data (or an empty
      body), with a client error (`HttpClientErrorException`, a 4xx status),
      or with any other failure of the request (a 5xx status, an I/O error). */
  datatype Lookup = Answered | ClientError(status: int) | OtherError

  /** How the server answers during one call: how the user lookups go, and
      whether the create, update or delete request itself fails. */
  datatype Reply = Reply(lookup: Lookup, requestFails: bool)

  const NOT_FOUND: int := 404

  // ---------------------------------------------------------------------------
  // Logins
  // ---------------------------------------------------------------------------

  /** The character class `[a-zA-Z0-9_-]`. */
  predicate IsLoginChar(c: char) {
    'a' <= c <= 'z' || 'A' <= c <= 'Z' || '0' <= c <= '9' || c == '_' || c == '-'
  }

  /** `isUserLoginLegal`: the login matches `^[a-zA-Z0-9_-]*$`, read one
      character at a time. */
  function IsUserLoginLegal(login: string): (legal: bool)
    ensures legal <==> forall k :: 0 <= k < |login| ==> IsLoginChar(login[k])
    ensures login == [] ==> legal
  {
    if login == [] then true
    else IsLoginChar(login[0]) && IsUserLoginLegal(login[1..])
  }

  // ---------------------------------------------------------------------------
  // The group rule
  // ---------------------------------------------------------------------------

  /** The role a user with `groups` gets on an exercise's job: instructor when
      the course's instructor group is among them, otherwise teaching
      assistant when its teaching-assistant group is, otherwise none. */
  function RoleFor(exercise: ProgrammingExercise, groups: set<string>): Option<Role> {
    if exercise.instructorGroup in groups then Some(Instructor)
    else if exercise.teachingAssistantGroup in groups then Some(TeachingAssistant)
    else None
  }

  /** Instructor beats teaching assistant: the instructor group decides alone,
      and the teaching-assistant group counts only without it. */
  lemma RoleForRule(exercise: ProgrammingExercise, groups: set<string>)
    ensures RoleFor(exercise, groups) == Some(Instructor) <==> exercise.instructorGroup in groups
    ensures RoleFor(exercise, groups) == Some(TeachingAssistant) <==>
      exercise.instructorGroup !in groups && exercise.teachingAssistantGroup in groups
    ensures RoleFor(exercise, groups).None? <==>
      exercise.instructorGroup !in groups && exercise.teachingAssistantGroup !in groups
  {
  }

  function PermissionsOf(roles: RolePermissions, role: Option<Role>): set<string> {
    match role
    case None => {}
    case Some(Instructor) => roles.instructor
    case Some(TeachingAssistant) => roles.teachingAssistant
  }

  /** `findAllByInstructorOrTAGroupNameIn`: the exercises whose course has its
      instructor or teaching-assistant group among `groups`, in stored order. */
  function ExercisesInGroups(exercises: seq<ProgrammingExercise>, groups: set<string>)
    : (found: seq<ProgrammingExercise>)
    ensures forall e :: e in found <==> e in exercises && RoleFor(e, groups).Some?
    ensures |found| <= |exercises|
  {
    if exercises == [] then []
    else
      var rest := ExercisesInGroups(exercises[1..], groups);
      assert forall e :: e in exercises <==> e == exercises[0] || e in exercises[1..];
      if RoleFor(exercises[0], groups).Some? then [exercises[0]] + rest else rest
  }

  /** The grants of `permissions` on `job` to `login`. */
  function GrantsFor(login: string, job: string, permissions: set<string>): set<Grant> {
    set p | p in permissions :: Grant(login, job, p)
  }

  /** The grants the group rule gives `login` on the jobs of `exercises`; a
      revocation takes away the same grants. */
  function Assigned(roles: RolePermissions, login: string, exercises: seq<ProgrammingExercise>, groups: set<string>)
    : set<Grant>
  {
    if exercises == [] then {}
    else
      var last := exercises[|exercises| - 1];
      Assigned(roles, login, exercises[..|exercises| - 1], groups)
      + GrantsFor(login, last.projectKey, PermissionsOf(roles, RoleFor(last, groups)))
  }

  /** A grant is given exactly when it is for `login` and some exercise's job,
      and its permission belongs to the role the rule picks for that exercise. */
  lemma {:induction false} AssignedMembers(roles: RolePermissions, login: string,
                                           exercises: seq<ProgrammingExercise>, groups: set<string>, g: Grant)
    ensures g in Assigned(roles, login, exercises, groups) <==>
      g.login == login &&
      exists i :: 0 <= i < |exercises| && exercises[i].projectKey == g.job
                  && g.permission in PermissionsOf(roles, RoleFor(exercises[i], groups))
  {
    if exercises != [] {
      var n := |exercises| - 1;
      var init := exercises[..n];
      AssignedMembers(roles, login, init, groups, g);
      if g in Assigned(roles, login, exercises, groups) {
        if g !in Assigned(roles, login, init, groups) {
          assert exercises[n].projectKey == g.job;
        } else {
          var i :| 0 <= i < |init| && init[i].projectKey == g.job
                   && g.permission in PermissionsOf(roles, RoleFor(init[i], groups));
          assert exercises[i] == init[i];
        }
      } else if g.login == login {
        forall i | 0 <= i < |exercises| && exercises[i].projectKey == g.job
          ensures g.permission !in PermissionsOf(roles, RoleFor(exercises[i], groups))
        {
          if i < n {
            assert init[i] == exercises[i];
          }
        }
      }
    }
  }

  /** After the rule is applied for `groups`, a user holds on the job of every
      stored exercise all the permissions of the role `groups` give it there. */
  lemma HoldsRolePermissions(roles: RolePermissions, login: string, exercises: seq<ProgrammingExercise>,
                             groups: set<string>, exercise: ProgrammingExercise, permission: string)
    requires exercise in exercises
    requires permission in PermissionsOf(roles, RoleFor(exercise, groups))
    ensures Grant(login, exercise.projectKey, permission) in Assigned(roles, login, ExercisesInGroups(exercises, groups), groups)
  {
    var found := ExercisesInGroups(exercises, groups);
    assert exercise in found;
    var i :| 0 <= i < |found| && found[i] == exercise;
    AssignedMembers(roles, login, found, groups, Grant(login, exercise.projectKey, permission));
  }

  /** The rule only ever grants to `login`, and only on the jobs of exercises
      of `groups`. */
  lemma AssignedOnlyForLogin(roles: RolePermissions, login: string, exercises: seq<ProgrammingExercise>,
                             groups: set<string>, g: Grant)
    requires g in Assigned(roles, login, ExercisesInGroups(exercises, groups), groups)
    ensures g.login == login
    ensures exists e :: e in exercises && RoleFor(e, groups).Some? && e.projectKey == g.job
  {
    var found := ExercisesInGroups(exercises, groups);
    AssignedMembers(roles, login, found, groups, g);
    var i :| 0 <= i < |found| && found[i].projectKey == g.job
             && g.permission in PermissionsOf(roles, RoleFor(found[i], groups));
    assert found[i] in found;
  }

  /** The grants after `removeUserFromGroups` with `groups`, starting from
      `before`: the revocations, then the rule re-applied for the user's own
      groups. */
  function AfterRemoval(roles: RolePermissions, before: set<Grant>, user: User, exercises: seq<ProgrammingExercise>,
                        groups: set<string>): set<Grant>
  {
    (before - Assigned(roles, user.login, ExercisesInGroups(exercises, groups), groups))
    + Assigned(roles, user.login, ExercisesInGroups(exercises, user.groups), user.groups)
  }

  /** Removing a user from groups leaves it every permission its own groups
      still give it: a teaching assistant who loses an instructor group keeps
      the teaching-assistant permissions. */
  lemma ReappliedAfterRemoval(roles: RolePermissions, before: set<Grant>, user: User,
                              exercises: seq<ProgrammingExercise>, groups: set<string>,
                              exercise: ProgrammingExercise, permission: string)
    requires exercise in exercises
    requires permission in PermissionsOf(roles, RoleFor(exercise, user.groups))
    ensures Grant(user.login, exercise.projectKey, permission) in AfterRemoval(roles, before, user, exercises, groups)
  {
    HoldsRolePermissions(roles, user.login, exercises, user.groups, exercise, permission);
  }

  /** A removal takes a permission away when no stored exercise with the same
      job gives it back through the user's own groups. */
  lemma RemovalRevokes(roles: RolePermissions, before: set<Grant>, user: User,
                       exercises: seq<ProgrammingExercise>, groups: set<string>,
                       exercise: ProgrammingExercise, permission: string)
    requires exercise in exercises
    requires permission in PermissionsOf(roles, RoleFor(exercise, groups))
    requires forall e :: e in exercises && e.projectKey == exercise.projectKey ==>
               permission !in PermissionsOf(roles, RoleFor(e, user.groups))
    ensures Grant(user.login, exercise.projectKey, permission) !in AfterRemoval(roles, before, user, exercises, groups)
  {
    var g := Grant(user.login, exercise.projectKey, permission);
    HoldsRolePermissions(roles, user.login, exercises, groups, exercise, permission);
    var found := ExercisesInGroups(exercises, user.groups);
    forall i | 0 <= i < |found| && found[i].projectKey == g.job
      ensures g.permission !in PermissionsOf(roles, RoleFor(found[i], user.groups))
    {
      assert found[i] in found;
    }
    AssignedMembers(roles, user.login, found, user.groups, g);
  }

  /** The grants of every other login are the same before and after a
      removal. */
  lemma RemovalKeepsOtherLogins(roles: RolePermissions, before: set<Grant>, user: User,
                                exercises: seq<ProgrammingExercise>, groups: set<string>, g: Grant)
    requires g.login != user.login
    ensures g in AfterRemoval(roles, before, user, exercises, groups) <==> g in before
  {
    if g in Assigned(roles, user.login, ExercisesInGroups(exercises, groups), groups) {
      AssignedOnlyForLogin(roles, user.login, exercises, groups, g);
    }
    if g in Assigned(roles, user.login, ExercisesInGroups(exercises, user.groups), user.groups) {
      AssignedOnlyForLogin(roles, user.login, exercises, user.groups, g);
    }
  }

  // ---------------------------------------------------------------------------
  // The server
  // ---------------------------------------------------------------------------

  /** The Jenkins server as Artemis changes it: the accounts by login and the
      permission grants on jobs. */
  class JenkinsServer {
    var accounts: map<string, Account>
    var grants: set<Grant>
    const roles: RolePermissions

    constructor (roles: RolePermissions)
      ensures accounts == map[] && grants == {} && this.roles == roles
    {
      accounts, grants := map[], {};
      this.roles := roles;
    }

    /** `getUser`: whether the login has an account. A `404` reads as absent,
        any other client error fails with a `JenkinsException`, and any other
        failure of the request is passed on. */
    function GetUser(login: string, lookup: Lookup): (found: Outcome<bool, Failure>)
      reads this
      ensures found.Ok? <==> lookup.Answered? || lookup == ClientError(NOT_FOUND)
      ensures found == Ok(true) <==> lookup.Answered? && login in accounts
      ensures lookup.ClientError? && lookup.status != NOT_FOUND ==>
                found == Fail(JenkinsException("Could not get user " + login))
      ensures lookup.OtherError? ==> found == Fail(RestClientException)
    {
      match lookup
      case Answered => Ok(login in accounts)
      case ClientError(status) =>
        if status == NOT_FOUND then Ok(false) else Fail(JenkinsException("Could not get user " + login))
      case OtherError => Fail(RestClientException)
    }

    /** The permission service granting `permissions` on `job` to `login`. */
    method AssignPermissionsForJob(login: string, job: string, permissions: set<string>)
      modifies this`grants
      ensures grants == old(grants) + GrantsFor(login, job, permissions)
    {
      grants := grants + GrantsFor(login, job, permissions);
    }

    /** The permission service taking `permissions` on `job` from `login`. */
    method RevokePermissionsForJob(login: string, job: string, permissions: set<string>)
      modifies this`grants
      ensures grants == old(grants) - GrantsFor(login, job, permissions)
    {
      grants := grants - GrantsFor(login, job, permissions);
    }

    /** `addUserToGroups`: for each exercise of `groups`, instructor
        permissions when the instructor group is in `groups`, otherwise
        teaching-assistant permissions when that group is. */
    method AddUserToGroups(user: User, groups: set<string>, exercises: seq<ProgrammingExercise>)
      modifies this`grants
      ensures grants == old(grants) + Assigned(roles, user.login, ExercisesInGroups(exercises, groups), groups)
    {
      var found := ExercisesInGroups(exercises, groups);
      for i := 0 to |found|
        invariant grants == old(grants) + Assigned(roles, user.login, found[..i], groups)
      {
        var exercise := found[i];
        var jobName := exercise.projectKey;
        assert found[..i + 1][..i] == found[..i];
        if exercise.instructorGroup in groups {
          AssignPermissionsForJob(user.login, jobName, roles.instructor);
          continue;
        }
        if exercise.teachingAssistantGroup in groups {
          AssignPermissionsForJob(user.login, jobName, roles.teachingAssistant);
        }
      }
      assert found[..|found|] == found;
    }

    /** `removeUserFromGroups`: the same rule revoking, then the rule applied
        again for the user's own groups. */
    method RemoveUserFromGroups(user: User, groups: set<string>, exercises: seq<ProgrammingExercise>)
      modifies this`grants
      ensures grants == AfterRemoval(roles, old(grants), user, exercises, groups)
    {
      var found := ExercisesInGroups(exercises, groups);
      for i := 0 to |found|
        invariant grants == old(grants) - Assigned(roles, user.login, found[..i], groups)
      {
        var exercise := found[i];
        var jobName := exercise.projectKey;
        assert found[..i + 1][..i] == found[..i];
        if exercise.instructorGroup in groups {
          RevokePermissionsForJob(user.login, jobName, roles.instructor);
          continue;
        }
        if exercise.teachingAssistantGroup in groups {
          RevokePermissionsForJob(user.login, jobName, roles.teachingAssistant);
        }
      }
      assert found[..|found|] == found;
      AddUserToGroups(user, user.groups, exercises);
    }

    /** `createUser`: fails when the lookup fails, then when the login exists,
        then when it is illegal, then when the request fails; otherwise the
        account is created and the rule applied for the user's groups. */
    method CreateUser(user: User, exercises: seq<ProgrammingExercise>, reply: Reply)
      returns (error: Option<Failure>)
      modifies this
      ensures var found := old(GetUser(user.login, reply.lookup));
        && (found.Fail? ==> error == Some(found.error))
        && (found == Ok(true) ==>
              error == Some(JenkinsException("Cannot create user: " + user.login + " because the login already exists")))
        && (found == Ok(false) && !IsUserLoginLegal(user.login) ==>
              error == Some(JenkinsException("Cannot create user: " + user.login
                                             + " because the login contains illegal characters")))
        && (found == Ok(false) && IsUserLoginLegal(user.login) && reply.requestFails ==>
              error == Some(JenkinsException("Cannot create user: " + user.login)))
        && (error.None? <==> found == Ok(false) && IsUserLoginLegal(user.login) && !reply.requestFails)
      ensures error.Some? ==> accounts == old(accounts) && grants == old(grants)
      ensures error.None? ==>
        && accounts == old(accounts)[user.login := AccountOf(user)]
        && grants == old(grants) + Assigned(roles, user.login, ExercisesInGroups(exercises, user.groups), user.groups)
    {
      var found := GetUser(user.login, reply.lookup);
      if found.Fail? {
        return Some(found.error);
      }
      if found.value {
        return Some(JenkinsException("Cannot create user: " + user.login + " because the login already exists"));
      }
      if !IsUserLoginLegal(user.login) {
        return Some(JenkinsException("Cannot create user: " + user.login + " because the login contains illegal characters"));
      }
      if reply.requestFails {
        return Some(JenkinsException("Cannot create user: " + user.login));
      }
      accounts := accounts[user.login := AccountOf(user)];
      AddUserToGroups(user, user.groups, exercises);
      error := None;
    }

    /** `deleteUser`: a missing login is left alone; otherwise the account is
        deleted unless the request fails. The user's grants stay. */
    method DeleteUser(userLogin: string, reply: Reply) returns (error: Option<Failure>)
      modifies this`accounts
      ensures var found := old(GetUser(userLogin, reply.lookup));
        && (found.Fail? ==> error == Some(found.error))
        && (found == Ok(false) ==> error.None? && accounts == old(accounts))
        && (found == Ok(true) && reply.requestFails ==>
              error == Some(JenkinsException("Cannot delete user: " + userLogin)))
        && (found == Ok(true) && !reply.requestFails ==> error.None? && accounts == old(accounts) - {userLogin})
      ensures error.Some? ==> accounts == old(accounts)
    {
      var found := GetUser(userLogin, reply.lookup);
      if found.Fail? {
        return Some(found.error);
      }
      if !found.value {
        return None;
      }
      if reply.requestFails {
        return Some(JenkinsException("Cannot delete user: " + userLogin));
      }
      accounts := accounts - {userLogin};
      error := None;
    }

    /** `updateUser`: fails when the lookup fails, then when the login is
        missing, then when the request fails; otherwise the account takes the
        user's profile and password. */
    method UpdateUser(user: User, reply: Reply) returns (error: Option<Failure>)
      modifies this`accounts
      ensures var found := old(GetUser(user.login, reply.lookup));
        && (found.Fail? ==> error == Some(found.error))
        && (found == Ok(false) ==>
              error == Some(JenkinsException("Cannot update user: " + user.login + " because it doesn't exist.")))
        && (found == Ok(true) && reply.requestFails ==>
              error == Some(JenkinsException("Cannot update user: " + user.login)))
        && (error.None? <==> found == Ok(true) && !reply.requestFails)
      ensures error.Some? ==> accounts == old(accounts)
      ensures error.None? ==> accounts == old(accounts)[user.login := AccountOf(user)]
    {
      var found := GetUser(user.login, reply.lookup);
      if found.Fail? {
        return Some(found.error);
      }
      if !found.value {
        return Some(JenkinsException("Cannot update user: " + user.login + " because it doesn't exist."));
      }
      if reply.requestFails {
        return Some(JenkinsException("Cannot update user: " + user.login));
      }
      accounts := accounts[user.login := AccountOf(user)];
      error := None;
    }

    /** `updateOrCreateUser`: creates the user exactly when the lookup finds
        no account, and updates it otherwise. */
    method UpdateOrCreateUser(user: User, exercises: seq<ProgrammingExercise>, reply: Reply)
      returns (error: Option<Failure>)
      modifies this
      ensures var found := old(GetUser(user.login, reply.lookup));
        && (found.Fail? ==> error == Some(found.error))
        && (found == Ok(false) && IsUserLoginLegal(user.login) && !reply.requestFails ==>
              && error.None?
              && accounts == old(accounts)[user.login := AccountOf(user)]
              && grants == old(grants) + Assigned(roles, user.login, ExercisesInGroups(exercises, user.groups), user.groups))
        && (found == Ok(false) && !IsUserLoginLegal(user.login) ==>
              error == Some(JenkinsException("Cannot create user: " + user.login
                                             + " because the login contains illegal characters")))
        && (found == Ok(false) && IsUserLoginLegal(user.login) && reply.requestFails ==>
              error == Some(JenkinsException("Cannot create user: " + user.login)))
        && (found == Ok(true) && !reply.requestFails ==>
              error.None? && accounts == old(accounts)[user.login := AccountOf(user)] && grants == old(grants))
        && (found == Ok(true) && reply.requestFails ==>
              error == Some(JenkinsException("Cannot update user: " + user.login)))
        && (error.None? <==>
              (found == Ok(true) || (found == Ok(false) && IsUserLoginLegal(user.login))) && !reply.requestFails)
      ensures error.Some? ==> accounts == old(accounts) && grants == old(grants)
    {
      var found := GetUser(user.login, reply.lookup);
      if found.Fail? {
        return Some(found.error);
      }
      if !found.value {
        error := CreateUser(user, exercises, reply);
      } else {
        error := UpdateUser(user, reply);
      }
    }

    /** `updateUserAndGroups`: the update, then the additions, then the
        removals; a failed update stops it. */
    method UpdateUserAndGroups(user: User, groupsToAdd: set<string>, groupsToRemove: set<string>,
                               exercises: seq<ProgrammingExercise>, reply: Reply)
      returns (error: Option<Failure>)
      modifies this
      ensures var found := old(GetUser(user.login, reply.lookup));
        error.None? <==> found == Ok(true) && !reply.requestFails
      ensures error.Some? ==> accounts == old(accounts) && grants == old(grants)
      ensures error.None? ==>
        && accounts == old(accounts)[user.login := AccountOf(user)]
        && grants == AfterRemoval(roles,
                                  old(grants) + Assigned(roles, user.login, ExercisesInGroups(exercises, groupsToAdd), groupsToAdd),
                                  user, exercises, groupsToRemove)
    {
      error := UpdateUser(user, reply);
      if error.Some? {
        return;
      }
      AddUserToGroups(user, groupsToAdd, exercises);
      RemoveUserFromGroups(user, groupsToRemove, exercises);
    }
  }
}
