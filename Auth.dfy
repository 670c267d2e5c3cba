/**
 * The authentication orchestrator: registration, login, password change and
 * reset, email verification and profile update, each a short sequence of
 * checks over the user table, the trust cache and the one-time-code service.
 *
 * What the outside world decides is passed in: whether a password check or a
 * code check succeeds, whether account creation, role assignment or a
 * password reset succeeds, the device id of the request header, the logged-in
 * username, the random numbers of the handle loop and the token issued.
 */
module Auth {
  import opened Wrappers
  import opened Text
  import opened Accounts
  import opened Handles
  import opened TrustCache

  /**
   * The outcomes of the flows (`ResponseEnums`), plus HandleCandidatesExhausted,
   * which only the bounded handle loop of this model can produce.
   */
  datatype ResponseEnum =
    | UserAlreadyExist
    | UserDoesNotExist
    | InvalidUsernamePassword
    | InvalidPassword
    | InvalidVerificationCode
    | VerificationCodeSent
    | UnableToCompleteProcess
    | UserRegisteredSuccessfully
    | UserLoginSuccessfully
    | PasswordChangedSuccessfully
    | ProfileUpdatedSuccessfully
    | EmailVerifiedSuccessfully
    | SomethingWentWrong
    | HandleCandidatesExhausted

  /** The payload of a finished flow: the account's profile and a fresh token. */
  datatype UserResponse = UserResponse(user: Account, token: string)

  /** `RegisterRequestDto`; `userHandle` is the handle the entity mapping starts the row with. */
  datatype RegisterRequest = RegisterRequest(
    userName: string, password: string, firstName: string, lastName: string,
    userHandle: string, otpCode: string)

  datatype LoginRequest = LoginRequest(userName: string, password: string, otpCode: string)

  datatype ChangePasswordRequest = ChangePasswordRequest(userName: string, currentPassword: string, newPassword: string)

  datatype ForgotPasswordRequest = ForgotPasswordRequest(userName: string, otpCode: string, newPassword: string)

  datatype VerifyEmailRequest = VerifyEmailRequest(userName: string, otpCode: string)

  /** `UpdateProfileRequestDto`; `userHandle` is the handle the profile mapping leaves on the row. */
  datatype UpdateProfileRequest = UpdateProfileRequest(
    userName: string, firstName: string, lastName: string, userHandle: string)

  /** The row `ToUserEntity` builds for a registration, with the handle the loop settled on. */
  function NewAccount(req: RegisterRequest, deviceId: string, handle: string): Account
  {
    Account(req.userName, req.firstName, req.lastName, handle, deviceId,
            false, false, "", req.password, {})
  }

  class AuthService {
    /** The trusted-device prefix of every cache key. */
    const trustedDevicePrefix: string
    /** The role every registered account is given. */
    const adminRole: string
    /** The user table. */
    var users: seq<Account>
    /** The trust cache. */
    var cache: map<string, string>
    /** The usernames a one-time code was issued for, in order. */
    ghost var otpIssued: seq<string>

    constructor (trustedDevicePrefix: string, adminRole: string, users: seq<Account>, cache: map<string, string>)
      ensures this.trustedDevicePrefix == trustedDevicePrefix && this.adminRole == adminRole
      ensures this.users == users && this.cache == cache && otpIssued == []
    {
      this.trustedDevicePrefix := trustedDevicePrefix;
      this.adminRole := adminRole;
      this.users := users;
      this.cache := cache;
      otpIssued := [];
    }

    /** The challenge step: invalidate the codes of the username, generate, save and send a new one. */
    method IssueOtp(userName: string)
      modifies this`otpIssued
      ensures otpIssued == old(otpIssued) + [userName]
    {
      otpIssued := otpIssued + [userName];
    }

    /**
     * `ValidateTrustedDevice`: a non-blank cache value for the pair grants
     * trust at once; otherwise the live row decides, and a positive answer
     * is written back to the cache if the key is absent.
     */
    method ValidateTrustedDevice(userName: string, deviceId: string) returns (trusted: bool)
      modifies this`cache
      ensures CacheHit(old(cache), CacheKey(trustedDevicePrefix, userName, deviceId)) ==> trusted && cache == old(cache)
      ensures !CacheHit(old(cache), CacheKey(trustedDevicePrefix, userName, deviceId)) ==>
                (trusted <==> RecordTrusts(users, userName, deviceId))
      ensures !trusted ==> cache == old(cache)
      ensures trusted == Trusted(old(cache), users, trustedDevicePrefix, userName, deviceId)
      ensures cache == Backfill(old(cache), users, trustedDevicePrefix, userName, deviceId)
    {
      var key := CacheKey(trustedDevicePrefix, userName, deviceId);
      if key !in cache || IsNullOrWhiteSpace(cache[key]) {
        var found := GetUserByUsername(users, userName);
        if found.None? || users[found.value].trustedDeviceId != deviceId {
          return false;
        }
        if key !in cache {
          cache := cache[key := users[found.value].trustedDeviceId];
        }
        return true;
      }
      return true;
    }

    /**
     * `UpdateDevice`: for the live row of the username, drop the cache key of
     * its old device, set the key of the new device, and record the new
     * device and the modifier on the row. Without a live row nothing changes.
     */
    method UpdateDevice(userName: string, deviceId: string)
      modifies this`users, this`cache
      ensures users == PromoteUsers(old(users), userName, deviceId)
      ensures cache == PromoteCache(old(cache), old(users), trustedDevicePrefix, userName, deviceId)
      ensures old(HandlesUnique(users)) ==> HandlesUnique(users)
    {
      var found := GetUserByUsername(users, userName);
      if found.Some? {
        var entity := users[found.value];
        cache := cache - {CacheKey(trustedDevicePrefix, userName, entity.trustedDeviceId)};
        cache := cache[CacheKey(trustedDevicePrefix, userName, deviceId) := deviceId];
        entity := entity.(trustedDeviceId := deviceId, modifiedBy := userName);
        ghost var unique := HandlesUnique(users);
        if unique {
          ReplaceSameHandle(users, found.value, entity);
        }
        users := users[found.value := entity];
      }
    }

    /**
     * `ChangeUserPassword`: sign out, take a reset token and reset the
     * password of row `i`; the reset may fail and then changes nothing.
     */
    method ChangeUserPassword(i: nat, newPassword: string, resetOk: bool) returns (succeeded: bool)
      requires i < |users|
      modifies this`users
      ensures succeeded == resetOk
      ensures users == if resetOk then old(users)[i := old(users)[i].(password := newPassword)] else old(users)
      ensures old(HandlesUnique(users)) ==> HandlesUnique(users)
    {
      if resetOk {
        ghost var unique := HandlesUnique(users);
        if unique {
          ReplaceSameHandle(users, i, users[i].(password := newPassword));
        }
        users := users[i := users[i].(password := newPassword)];
      }
      succeeded := resetOk;
    }

    /**
     * `Register`: refuse a live username; without a code, issue one; with a
     * wrong code, refuse; otherwise, inside one unit of work, settle the
     * handle, create the row, give it the default role and issue a token.
     * A failed creation or role assignment leaves the table as it was.
     */
    method Register(req: RegisterRequest, deviceId: string, otpValid: bool, createOk: bool, addRoleOk: bool,
                    suffixes: seq<nat>, token: string)
      returns (outcome: ResponseEnum, payload: Option<UserResponse>)
      modifies this`users, this`otpIssued
      ensures UserExists(old(users), req.userName) ==>
                outcome == UserAlreadyExist && payload.None? && users == old(users) && otpIssued == old(otpIssued)
      ensures !UserExists(old(users), req.userName) && IsNullOrWhiteSpace(req.otpCode) ==>
                outcome == VerificationCodeSent && payload.None? && users == old(users)
                && otpIssued == old(otpIssued) + [req.userName]
      ensures !UserExists(old(users), req.userName) && !IsNullOrWhiteSpace(req.otpCode) && !otpValid ==>
                outcome == InvalidVerificationCode && payload.None? && users == old(users) && otpIssued == old(otpIssued)
      ensures !UserExists(old(users), req.userName) && !IsNullOrWhiteSpace(req.otpCode) && otpValid ==>
                otpIssued == old(otpIssued) &&
                var handle := FirstFree(old(users), req.userName, Attempts(req.userHandle, req.firstName, req.lastName, suffixes));
                if handle.None? then
                  outcome == HandleCandidatesExhausted && payload.None? && users == old(users)
                else if !createOk || !addRoleOk then
                  outcome == UnableToCompleteProcess && payload.None? && users == old(users)
                else
                  var user := NewAccount(req, deviceId, handle.value).(roles := {adminRole});
                  outcome == UserRegisteredSuccessfully && payload == Some(UserResponse(user, token))
                  && users == old(users) + [user]
      ensures payload.Some? <==> outcome == UserRegisteredSuccessfully
      ensures outcome != UserRegisteredSuccessfully ==> users == old(users)
      ensures outcome == UnableToCompleteProcess ==> !UserExists(users, req.userName)
      ensures outcome == UserRegisteredSuccessfully ==>
                GetUserByUsername(users, req.userName) == Some(|old(users)|)
                && !UserhandleAlreadyExist(old(users), users[|old(users)|].userHandle, req.userName)
      ensures old(HandlesUnique(users)) ==> HandlesUnique(users)
    {
      if UserExists(users, req.userName) {
        return UserAlreadyExist, None;
      }
      if IsNullOrWhiteSpace(req.otpCode) {
        IssueOtp(req.userName);
        return VerificationCodeSent, None;
      }
      if !otpValid {
        return InvalidVerificationCode, None;
      }
      // The transaction scope: the table as it was when the unit of work began.
      ghost var snapshot := users;
      var handle := AllocateHandle(users, req.userName, req.userHandle, req.firstName, req.lastName, suffixes);
      if handle.None? {
        return HandleCandidatesExhausted, None;
      }
      var user := NewAccount(req, deviceId, handle.value);
      if !createOk {
        return UnableToCompleteProcess, None;
      }
      ghost var unique := HandlesUnique(users);
      if unique {
        InsertFreeHandle(users, user);
      }
      users := users + [user];
      if !addRoleOk {
        // The compensating delete removes the row just created; the scope is
        // left without completing, and the table is back at its snapshot.
        users := users[..|users| - 1];
        assert users == snapshot;
        return UnableToCompleteProcess, None;
      }
      user := user.(roles := user.roles + {adminRole});
      assert user.roles == {adminRole};
      users := users[|users| - 1 := user];
      assert users == snapshot + [user];
      NewRowIsFound(snapshot, user, req.userName);
      return UserRegisteredSuccessfully, Some(UserResponse(user, token));
    }

    /**
     * `Login`. The trust check (which may back-fill the cache) runs before the
     * password check; a wrong password refuses whatever the device. An
     * untrusted device needs a code: none issues one, a wrong one refuses, a
     * right one promotes the device. The success outcome is, as written,
     * InvalidVerificationCode together with a payload.
     */
    method Login(req: LoginRequest, deviceId: string, passwordOk: bool, otpValid: bool, token: string)
      returns (outcome: ResponseEnum, payload: Option<UserResponse>)
      modifies this`users, this`cache, this`otpIssued
      ensures !UserExists(old(users), req.userName) ==>
                outcome == InvalidUsernamePassword && payload.None?
                && users == old(users) && cache == old(cache) && otpIssued == old(otpIssued)
      ensures UserExists(old(users), req.userName) ==>
                var i := FindByName(old(users), req.userName).value;
                var u := old(users)[i];
                var trusted := Trusted(old(cache), old(users), trustedDevicePrefix, u.userName, deviceId);
                var backfilled := Backfill(old(cache), old(users), trustedDevicePrefix, u.userName, deviceId);
                if !passwordOk then
                  outcome == InvalidUsernamePassword && payload.None?
                  && users == old(users) && cache == backfilled && otpIssued == old(otpIssued)
                else if trusted then
                  outcome == InvalidVerificationCode && payload == Some(UserResponse(u, token))
                  && users == old(users) && cache == backfilled && otpIssued == old(otpIssued)
                else if IsNullOrWhiteSpace(req.otpCode) then
                  outcome == VerificationCodeSent && payload.None?
                  && users == old(users) && cache == old(cache) && otpIssued == old(otpIssued) + [req.userName]
                else if !otpValid then
                  outcome == InvalidVerificationCode && payload.None?
                  && users == old(users) && cache == old(cache) && otpIssued == old(otpIssued)
                else
                  && users == PromoteUsers(old(users), u.userName, deviceId)
                  && cache == PromoteCache(old(cache), old(users), trustedDevicePrefix, u.userName, deviceId)
                  && otpIssued == old(otpIssued)
                  && outcome == InvalidVerificationCode && payload == Some(UserResponse(users[i], token))
      ensures payload.Some? ==> outcome == InvalidVerificationCode
      ensures !passwordOk ==> payload.None? && users == old(users)
      ensures old(HandlesUnique(users)) ==> HandlesUnique(users)
    {
      var found := FindByName(users, req.userName);
      if found.None? || !UserExists(users, req.userName) {
        return InvalidUsernamePassword, None;
      }
      var i := found.value;
      var user := users[i];
      var deviceIdIsTrusted := ValidateTrustedDevice(user.userName, deviceId);
      if !passwordOk {
        return InvalidUsernamePassword, None;
      }
      if !deviceIdIsTrusted && IsNullOrWhiteSpace(req.otpCode) {
        IssueOtp(req.userName);
        return VerificationCodeSent, None;
      }
      if !deviceIdIsTrusted && !otpValid {
        return InvalidVerificationCode, None;
      }
      if !deviceIdIsTrusted {
        ghost var before := users;
        UpdateDevice(user.userName, deviceId);
        assert |users| == |before|;
        user := users[i];
      }
      // The success label of the source: InvalidVerificationCode, with a payload.
      return InvalidVerificationCode, Some(UserResponse(user, token));
    }

    /**
     * `ChangePassword`: check the current password, reset to the new one, and
     * check that the new one now signs in before issuing a token.
     */
    method ChangePassword(req: ChangePasswordRequest, currentOk: bool, resetOk: bool, newOk: bool, token: string)
      returns (outcome: ResponseEnum, payload: Option<UserResponse>)
      modifies this`users
      ensures !UserExists(old(users), req.userName) ==>
                outcome == InvalidUsernamePassword && payload.None? && users == old(users)
      ensures UserExists(old(users), req.userName) ==>
                var i := FindByName(old(users), req.userName).value;
                if !currentOk then
                  outcome == InvalidPassword && payload.None? && users == old(users)
                else if !resetOk then
                  outcome == SomethingWentWrong && payload.None? && users == old(users)
                else
                  && users == old(users)[i := old(users)[i].(password := req.newPassword)]
                  && (!newOk ==> outcome == InvalidPassword && payload.None?)
                  && (newOk ==> outcome == PasswordChangedSuccessfully && payload == Some(UserResponse(users[i], token)))
      ensures payload.Some? <==> outcome == PasswordChangedSuccessfully
      ensures !currentOk ==> users == old(users)
      ensures old(HandlesUnique(users)) ==> HandlesUnique(users)
    {
      var found := FindByName(users, req.userName);
      if found.None? || !UserExists(users, req.userName) {
        return InvalidUsernamePassword, None;
      }
      var i := found.value;
      if !currentOk {
        return InvalidPassword, None;
      }
      var changed := ChangeUserPassword(i, req.newPassword, resetOk);
      if !changed {
        return SomethingWentWrong, None;
      }
      if !newOk {
        return InvalidPassword, None;
      }
      return PasswordChangedSuccessfully, Some(UserResponse(users[i], token));
    }

    /**
     * `ForgotPassword`: the challenge shape of registration, gated on the
     * account existing. A right code resets the password without asking for
     * the old one; the result of the reset is not looked at.
     */
    method ForgotPassword(req: ForgotPasswordRequest, otpValid: bool, resetOk: bool, token: string)
      returns (outcome: ResponseEnum, payload: Option<UserResponse>)
      modifies this`users, this`otpIssued
      ensures !UserExists(old(users), req.userName) ==>
                outcome == InvalidUsernamePassword && payload.None? && users == old(users) && otpIssued == old(otpIssued)
      ensures UserExists(old(users), req.userName) ==>
                var i := FindByName(old(users), req.userName).value;
                if IsNullOrWhiteSpace(req.otpCode) then
                  outcome == VerificationCodeSent && payload.None?
                  && users == old(users) && otpIssued == old(otpIssued) + [req.userName]
                else if !otpValid then
                  outcome == InvalidVerificationCode && payload.None? && users == old(users) && otpIssued == old(otpIssued)
                else
                  && users == (if resetOk then old(users)[i := old(users)[i].(password := req.newPassword)] else old(users))
                  && otpIssued == old(otpIssued)
                  && outcome == UserLoginSuccessfully && payload == Some(UserResponse(users[i], token))
      ensures users != old(users) ==> !IsNullOrWhiteSpace(req.otpCode) && otpValid
      ensures payload.Some? <==> outcome == UserLoginSuccessfully
      ensures old(HandlesUnique(users)) ==> HandlesUnique(users)
    {
      var found := FindByName(users, req.userName);
      if found.None? || !UserExists(users, req.userName) {
        return InvalidUsernamePassword, None;
      }
      var i := found.value;
      if IsNullOrWhiteSpace(req.otpCode) {
        IssueOtp(req.userName);
        return VerificationCodeSent, None;
      }
      if !otpValid {
        return InvalidVerificationCode, None;
      }
      var _ := ChangeUserPassword(i, req.newPassword, resetOk);
      return UserLoginSuccessfully, Some(UserResponse(users[i], token));
    }

    /**
     * `VerifyEmail`: a confirmed account succeeds at once; otherwise the
     * challenge shape runs and a right code sets the confirmed flag. A
     * success leaves the account confirmed, so a second call takes the
     * short cut.
     */
    method VerifyEmail(req: VerifyEmailRequest, otpValid: bool) returns (outcome: ResponseEnum)
      modifies this`users, this`otpIssued
      ensures !UserExists(old(users), req.userName) ==>
                outcome == UserDoesNotExist && users == old(users) && otpIssued == old(otpIssued)
      ensures UserExists(old(users), req.userName) ==>
                var i := FindByName(old(users), req.userName).value;
                var u := old(users)[i];
                if u.emailConfirmed then
                  outcome == EmailVerifiedSuccessfully && users == old(users) && otpIssued == old(otpIssued)
                else if IsNullOrWhiteSpace(req.otpCode) then
                  outcome == VerificationCodeSent && users == old(users) && otpIssued == old(otpIssued) + [req.userName]
                else if !otpValid then
                  outcome == InvalidVerificationCode && users == old(users) && otpIssued == old(otpIssued)
                else
                  outcome == EmailVerifiedSuccessfully && users == old(users)[i := u.(emailConfirmed := true)]
                  && otpIssued == old(otpIssued)
      ensures outcome == EmailVerifiedSuccessfully ==>
                UserExists(users, req.userName) && FindByName(users, req.userName) == FindByName(old(users), req.userName)
                && users[FindByName(users, req.userName).value].emailConfirmed
      ensures old(HandlesUnique(users)) ==> HandlesUnique(users)
    {
      var found := FindByName(users, req.userName);
      if found.None? || !UserExists(users, req.userName) {
        return UserDoesNotExist;
      }
      var i := found.value;
      var user := users[i];
      if !user.emailConfirmed && IsNullOrWhiteSpace(req.otpCode) {
        IssueOtp(req.userName);
        return VerificationCodeSent;
      }
      if !user.emailConfirmed && !otpValid {
        return InvalidVerificationCode;
      }
      if !user.emailConfirmed {
        user := user.(emailConfirmed := true);
        LookupsUnchanged(users, i, user, req.userName);
        ghost var unique := HandlesUnique(users);
        if unique {
          ReplaceSameHandle(users, i, user);
        }
        users := users[i := user];
      }
      return EmailVerifiedSuccessfully;
    }

    /**
     * `UpdateProfile`: apply the profile fields to the row, run the handle
     * loop for it (its own row never collides), stamp the modifier and save.
     */
    method UpdateProfile(req: UpdateProfileRequest, loggedInUser: string, suffixes: seq<nat>, token: string)
      returns (outcome: ResponseEnum, payload: Option<UserResponse>)
      modifies this`users
      ensures !UserExists(old(users), req.userName) ==>
                outcome == UserDoesNotExist && payload.None? && users == old(users)
      ensures UserExists(old(users), req.userName) ==>
                var i := FindByName(old(users), req.userName).value;
                var mapped := old(users)[i].(firstName := req.firstName, lastName := req.lastName, userHandle := req.userHandle);
                var handle := FirstFree(old(users), mapped.userName, Attempts(req.userHandle, req.firstName, req.lastName, suffixes));
                if handle.None? then
                  outcome == HandleCandidatesExhausted && payload.None? && users == old(users)
                else
                  var user := mapped.(userHandle := handle.value, modifiedBy := loggedInUser);
                  outcome == ProfileUpdatedSuccessfully && payload == Some(UserResponse(user, token))
                  && users == old(users)[i := user]
      ensures UserExists(old(users), req.userName) && old(HandlesUnique(users)) ==>
                var i := FindByName(old(users), req.userName).value;
                !old(users)[i].deleted && req.userHandle == old(users)[i].userHandle ==>
                  outcome == ProfileUpdatedSuccessfully && users[i].userHandle == req.userHandle
      ensures payload.Some? <==> outcome == ProfileUpdatedSuccessfully
      ensures old(HandlesUnique(users)) ==> HandlesUnique(users)
    {
      var found := FindByName(users, req.userName);
      if found.None? || !UserExists(users, req.userName) {
        return UserDoesNotExist, None;
      }
      var i := found.value;
      var user := users[i].(firstName := req.firstName, lastName := req.lastName, userHandle := req.userHandle);
      ghost var unique := HandlesUnique(users);
      if unique && !users[i].deleted && req.userHandle == users[i].userHandle {
        KeepsOwnHandle(users, i, req.firstName, req.lastName, suffixes);
      }
      var handle := AllocateHandle(users, user.userName, user.userHandle, req.firstName, req.lastName, suffixes);
      if handle.None? {
        return HandleCandidatesExhausted, None;
      }
      user := user.(userHandle := handle.value, modifiedBy := loggedInUser);
      if unique {
        ReplaceFreeHandle(users, i, user);
      }
      users := users[i := user];
      return ProfileUpdatedSuccessfully, Some(UserResponse(user, token));
    }
  }

  /** The row appended by a registration is what the live-row lookup finds for its username. */
  lemma NewRowIsFound(users: seq<Account>, a: Account, name: string)
    requires !UserExists(users, name) && IsLiveNamed(a, name)
    ensures GetUserByUsername(users + [a], name) == Some(|users|)
  {
    var s := users + [a];
    assert forall j :: 0 <= j < |users| ==> s[j] == users[j];
    assert IsLiveNamed(s[|users|], name);
  }
}
