/**
 * AuthenticationService: registration, issuing activation tokens, and
 * activating an account with a token. The clock is a `now` parameter in
 * minutes, the secure random source is a sequence of draws, and the email
 * service is a function telling whether it accepted a message.
 */
module Auth {
  import opened Wrappers
  import opened Entities
  import opened Roles

  type Users = map<UserId, User>
  type Tokens = map<TokenId, Token>

  /** One draw of `nextInt(10)`: an index into the digit alphabet. */
  type DigitIndex = d: int | 0 <= d < 10

  const Digits := "0123456789"
  const ActivationCodeLength := 6
  const ActivationMinutes := 15
  const ActivationSubject := "Account activation"
  const RoleNotInitialized := "Role user is not initialized"
  const InvalidToken := "Invalid token"
  const TokenExpired := "Activation token has expired.A new token has been send to the account"
  const UserNotFound := "User not found"

  predicate IsDigitString(s: string)
  {
    forall i :: 0 <= i < |s| ==> '0' <= s[i] <= '9'
  }

  /** The message the email service is asked to deliver for an activation code. */
  function ActivationEmail(user: User, activationUrl: string, code: string): Email
  {
    Email(user.email, FullName(user), ActivateAccountTemplate, activationUrl, code, ActivationSubject)
  }

  /** A token freshly issued to `user` at `now`, still unvalidated. */
  predicate IssuedAt(token: Token, user: User, now: Minutes)
  {
    && token.user == user
    && token.createdAt == now
    && token.expiresAt == now + ActivationMinutes
    && token.validateAt.None?
    && |token.token| == ActivationCodeLength
    && IsDigitString(token.token)
  }

  /** The keys of the tokens whose code is `code`. */
  function TokensWithCode(tokens: Tokens, code: string): set<TokenId>
  {
    set k | k in tokens && tokens[k].token == code
  }

  /** `k` holds the one and only token with code `code`. */
  predicate OnlyMatch(tokens: Tokens, code: string, k: TokenId)
  {
    k in tokens && TokensWithCode(tokens, code) == {k}
  }

  class AuthenticationService {
    var users: Users
    var tokens: Tokens
    var nextUserId: UserId
    var nextTokenId: TokenId
    const roleRepo: RoleRepo
    const activationUrl: string

    ghost predicate Valid()
      reads this
    {
      && (forall k :: k in users ==> k < nextUserId && users[k].id == k)
      && (forall k :: k in tokens ==> k < nextTokenId)
    }

    constructor (roleRepo: RoleRepo, activationUrl: string)
      ensures Valid() && users == map[] && tokens == map[]
      ensures this.roleRepo == roleRepo && this.activationUrl == activationUrl
    {
      this.roleRepo, this.activationUrl := roleRepo, activationUrl;
      users, tokens := map[], map[];
      nextUserId, nextTokenId := 0, 0;
    }

    /**
     * Saves a new, disabled and unlocked user holding the USER role, or fails
     * with nothing saved when the role lookup finds no USER role or throws
     * because it finds several. `encodedPassword` is what
     * the password encoder returns for `request.password`.
     */
    method Register(request: RegistrationRequest, encodedPassword: string) returns (r: Outcome<Error>)
      requires Valid()
      modifies this
      ensures Valid()
      ensures tokens == old(tokens) && nextTokenId == old(nextTokenId)
      ensures r.Fail? <==> |RolesNamed(roleRepo.roles, UserRoleName)| != 1
      ensures !HasRoleNamed(roleRepo.roles, UserRoleName) ==> r == Fail(IllegalState(RoleNotInitialized))
      ensures |RolesNamed(roleRepo.roles, UserRoleName)| > 1 ==> r == Fail(IncorrectResultSize)
      ensures r.Fail? ==> users == old(users) && nextUserId == old(nextUserId)
      ensures r.Pass? ==>
                var id := old(nextUserId);
                && id !in old(users) && id in users && users == old(users)[id := users[id]]
                && var user := users[id];
                && user.id == id && user.firstName == request.firstName && user.lastName == request.lastName
                && user.email == request.email && user.password == encodedPassword
                && !user.enabled && !user.accountLocked
                && |user.roles| == 1 && user.roles[0].name == UserRoleName && user.roles[0] in roleRepo.roles.Values
    {
      var found := roleRepo.FindByName(UserRoleName);
      if found.Failure? {
        return Fail(found.error);
      }
      var userRole := found.value;
      if userRole.None? {
        return Fail(IllegalState(RoleNotInitialized));
      }
      var id := nextUserId;
      var user := User(
        id := id,
        firstName := request.firstName,
        lastName := request.lastName,
        email := request.email,
        password := encodedPassword,
        accountLocked := false,
        enabled := false,
        roles := [userRole.value]);
      users := users[id := user];
      nextUserId := nextUserId + 1;
      r := Pass;
    }

    /**
     * Builds a code of `length` characters, the i-th being the digit picked
     * by the i-th draw of the random source.
     */
    method GenerateActivationCode(length: int, random: nat -> DigitIndex) returns (code: string)
      ensures |code| == if length < 0 then 0 else length
      ensures IsDigitString(code)
      ensures forall i :: 0 <= i < |code| ==> code[i] == Digits[random(i)]
    {
      code := "";
      var i := 0;
      while i < length
        invariant 0 <= i && |code| == i
        invariant length >= 0 ==> i <= length
        invariant length < 0 ==> i == 0
        invariant IsDigitString(code)
        invariant forall j :: 0 <= j < i ==> code[j] == Digits[random(j)]
      {
        var randomText := random(i);
        code := code + [Digits[randomText]];
        i := i + 1;
      }
    }

    /** Stores a new token for `user`, valid for 15 minutes from `now`, and returns its code. */
    method GenerateAndSaveActivationToken(user: User, now: Minutes, random: nat -> DigitIndex)
      returns (code: string)
      requires Valid()
      modifies this
      ensures Valid()
      ensures users == old(users) && nextUserId == old(nextUserId)
      ensures old(nextTokenId) !in old(tokens)
      ensures tokens == old(tokens)[old(nextTokenId) := Token(code, now, now + ActivationMinutes, None, user)]
      ensures IssuedAt(tokens[old(nextTokenId)], user, now)
    {
      code := GenerateActivationCode(ActivationCodeLength, random);
      var token := Token(code, now, now + ActivationMinutes, None, user);
      tokens := tokens[nextTokenId := token];
      nextTokenId := nextTokenId + 1;
    }

    /**
     * Issues a token and then hands its code to the email service. The token
     * is stored before the email is attempted, so it stays stored when the
     * email service fails.
     */
    method SendValidationEmail(user: User, now: Minutes, random: nat -> DigitIndex, emailSent: Email -> bool)
      returns (r: Outcome<Error>)
      requires Valid()
      modifies this
      ensures Valid()
      ensures users == old(users) && nextUserId == old(nextUserId)
      ensures old(nextTokenId) !in old(tokens) && old(nextTokenId) in tokens
      ensures tokens == old(tokens)[old(nextTokenId) := tokens[old(nextTokenId)]]
      ensures IssuedAt(tokens[old(nextTokenId)], user, now)
      ensures r == if emailSent(ActivationEmail(user, activationUrl, tokens[old(nextTokenId)].token))
                   then Pass else Fail(Messaging)
    {
      var newToken := GenerateAndSaveActivationToken(user, now, random);
      if emailSent(ActivationEmail(user, activationUrl, newToken)) {
        r := Pass;
      } else {
        r := Fail(Messaging);
      }
    }

    /**
     * Activates the account a token belongs to. An unknown code fails and
     * changes nothing. An expired token (now strictly after its expiry)
     * triggers a fresh token for the same user and then fails, leaving the
     * user and the old token as they were. Otherwise the user is enabled and
     * the token stamped as validated now; whether it was validated before is
     * never looked at.
     */
    method ActivateAccount(code: string, now: Minutes, random: nat -> DigitIndex, emailSent: Email -> bool)
      returns (r: Outcome<Error>)
      requires Valid()
      modifies this
      ensures Valid()
      ensures TokensWithCode(old(tokens), code) == {} ==>
                r == Fail(Runtime(InvalidToken)) && unchanged(this)
      ensures |TokensWithCode(old(tokens), code)| > 1 ==>
                r == Fail(IncorrectResultSize) && unchanged(this)
      ensures forall k :: OnlyMatch(old(tokens), code, k) && now > old(tokens)[k].expiresAt ==>
                && users == old(users)
                && old(nextTokenId) !in old(tokens) && old(nextTokenId) in tokens
                && tokens == old(tokens)[old(nextTokenId) := tokens[old(nextTokenId)]]
                && IssuedAt(tokens[old(nextTokenId)], old(tokens)[k].user, now)
                && tokens[old(nextTokenId)].expiresAt > old(tokens)[k].expiresAt
                && r == Fail(if emailSent(ActivationEmail(old(tokens)[k].user, activationUrl, tokens[old(nextTokenId)].token))
                             then Runtime(TokenExpired) else Messaging)
      ensures forall k :: OnlyMatch(old(tokens), code, k) && now <= old(tokens)[k].expiresAt
                          && old(tokens)[k].user.id !in old(users) ==>
                r == Fail(UsernameNotFound(UserNotFound)) && unchanged(this)
      ensures forall k :: OnlyMatch(old(tokens), code, k) && now <= old(tokens)[k].expiresAt
                          && old(tokens)[k].user.id in old(users) ==>
                var id := old(tokens)[k].user.id;
                && r == Pass
                && users == old(users)[id := old(users)[id].(enabled := true)]
                && tokens == old(tokens)[k := old(tokens)[k].(validateAt := Some(now))]
      ensures r.Pass? ==> exists k :: OnlyMatch(old(tokens), code, k) && now <= old(tokens)[k].expiresAt
    {
      if !exists j :: j in tokens && tokens[j].token == code {
        assert TokensWithCode(tokens, code) == {};
        return Fail(Runtime(InvalidToken));
      }
      var k :| k in tokens && tokens[k].token == code;
      if other :| other in tokens && tokens[other].token == code && other != k {
        assert {k, other} <= TokensWithCode(tokens, code);
        return Fail(IncorrectResultSize);
      }
      assert forall j :: j in TokensWithCode(tokens, code) <==> j == k;
      assert TokensWithCode(tokens, code) == {k};
      var savedToken := tokens[k];
      if now > savedToken.expiresAt {
        r := SendValidationEmail(savedToken.user, now, random, emailSent);
        if r.Pass? {
          r := Fail(Runtime(TokenExpired));
        }
        return;
      }
      var id := savedToken.user.id;
      if id !in users {
        return Fail(UsernameNotFound(UserNotFound));
      }
      var user := users[id];
      user := user.(enabled := true);
      users := users[id := user];
      savedToken := savedToken.(validateAt := Some(now));
      tokens := tokens[k := savedToken];
      r := Pass;
    }
  }

  /**
   * Activating twice with the same unexpired code succeeds both times:
   * a token already validated is accepted again.
   */
  method ActivateTwice(service: AuthenticationService, code: string, now: Minutes, later: Minutes,
                       random: nat -> DigitIndex, emailSent: Email -> bool, ghost k: TokenId)
    returns (first: Outcome<Error>, second: Outcome<Error>)
    requires service.Valid()
    requires OnlyMatch(service.tokens, code, k) && service.tokens[k].user.id in service.users
    requires now <= later <= service.tokens[k].expiresAt
    modifies service
    ensures first == Pass && second == Pass
    ensures k in service.tokens && service.tokens[k].user.id in service.users
    ensures service.users[service.tokens[k].user.id].enabled
    ensures service.tokens[k].validateAt == Some(later)
  {
    first := service.ActivateAccount(code, now, random, emailSent);
    assert OnlyMatch(service.tokens, code, k) by {
      assert TokensWithCode(service.tokens, code) == {k};
    }
    second := service.ActivateAccount(code, later, random, emailSent);
  }
}
