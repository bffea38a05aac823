/** BookStoreApplication: the startup step that provisions the USER role. */
module Application {
  import opened Wrappers
  import opened Entities
  import opened Roles
  import opened Auth

  /**
   * The role table after the runner, given the key the repository assigns
   * next: a USER role exists, existing roles are untouched, and at most
   * one role, named USER, is added.
   */
  function SeedUserRole(roles: Roles, freshId: RoleId): (seeded: Roles)
    requires freshId !in roles
    ensures HasRoleNamed(seeded, UserRoleName)
    ensures HasRoleNamed(roles, UserRoleName) ==> seeded == roles
    ensures forall k :: k in roles ==> k in seeded && seeded[k] == roles[k]
    ensures forall k :: k in seeded && k !in roles ==> k == freshId && seeded[k] == Role(freshId, UserRoleName)
    ensures |RolesNamed(roles, UserRoleName)| <= 1 ==> |RolesNamed(seeded, UserRoleName)| == 1
  {
    if HasRoleNamed(roles, UserRoleName) then roles
    else
      var seeded := roles[freshId := Role(freshId, UserRoleName)];
      assert seeded[freshId].name == UserRoleName;
      assert forall k :: k in roles ==> k !in RolesNamed(roles, UserRoleName);
      assert forall k :: k in RolesNamed(seeded, UserRoleName) <==> k == freshId;
      assert RolesNamed(seeded, UserRoleName) == {freshId};
      seeded
  }

  /** Running the seeding step a second time changes nothing. */
  lemma SeedUserRoleIdempotent(roles: Roles, firstId: RoleId, secondId: RoleId)
    requires firstId !in roles && secondId !in SeedUserRole(roles, firstId)
    ensures SeedUserRole(SeedUserRole(roles, firstId), secondId) == SeedUserRole(roles, firstId)
  {
  }

  /**
   * The body of the `runner` bean: save a USER role unless the lookup finds
   * one. When several USER roles exist the lookup throws, and so does the
   * runner, having written nothing.
   */
  method Runner(repo: RoleRepo) returns (r: Outcome<Error>)
    requires repo.Valid()
    modifies repo
    ensures repo.Valid()
    ensures r.Fail? <==> |RolesNamed(old(repo.roles), UserRoleName)| > 1
    ensures r.Fail? ==> r.error == IncorrectResultSize && repo.roles == old(repo.roles)
    ensures repo.roles == SeedUserRole(old(repo.roles), old(repo.nextRoleId))
  {
    var existing := repo.FindByName(UserRoleName);
    if existing.Failure? {
      return Fail(existing.error);
    }
    if existing.value.None? {
      var _ := repo.Save(UserRoleName);
    }
    r := Pass;
  }

  /** Starting the application twice leaves the role table as one start does. */
  method RunnerTwice(repo: RoleRepo) returns (first: Outcome<Error>, second: Outcome<Error>)
    requires repo.Valid()
    modifies repo
    ensures repo.Valid()
    ensures first == second
    ensures repo.roles == SeedUserRole(old(repo.roles), old(repo.nextRoleId))
  {
    first := Runner(repo);
    ghost var keyAfterFirst := repo.nextRoleId;
    second := Runner(repo);
    SeedUserRoleIdempotent(old(repo.roles), old(repo.nextRoleId), keyAfterFirst);
  }

  /**
   * Registration depends on the startup step: once the runner has completed,
   * registering a user succeeds.
   */
  method RunnerThenRegister(repo: RoleRepo, service: AuthenticationService,
                            request: RegistrationRequest, encodedPassword: string)
    returns (started: Outcome<Error>, registered: Outcome<Error>)
    requires repo.Valid() && service.Valid() && service.roleRepo == repo
    modifies repo, service
    ensures started.Pass? <==> |RolesNamed(old(repo.roles), UserRoleName)| <= 1
    ensures started.Pass? ==> registered == Pass
  {
    started := Runner(repo);
    registered := service.Register(request, encodedPassword);
  }
}
