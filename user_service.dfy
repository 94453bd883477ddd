/** The account-management service: registration, the soft-delete, activation and
    verification flags, password changes, and the failed-login counter with its
    temporary lock. The class stands in for the service together with its
    repository, whose rows it holds; the password encoder is a pair of functions
    it is constructed with. */
module UserAccounts {
  import opened Common
  import opened Collections
  import opened Users

  /** The failed attempt that locks the account, and how long the lock lasts. */
  const MaxLoginAttempts: int := 5
  const LockMinutes: int := 30

  /** What a user is looked up by: the id (`findById`) or the email (`findByEmail`). */
  datatype UserKey = ById(id: nat) | ByEmail(email: string)

  /** The user carries that key. */
  predicate HasKey(u: User, key: UserKey) {
    match key
    case ById(id) => u.id == id
    case ByEmail(email) => u.email == email
  }

  /** `findById` and `findByEmail`: the position of the first user with that key. */
  function IndexOf(s: seq<User>, key: UserKey): (r: Option<nat>)
    ensures r.Some? ==> r.value < |s| && HasKey(s[r.value], key)
    ensures r.None? <==> forall u :: u in s ==> !HasKey(u, key)
  {
    FirstIndex(s, (u: User) => HasKey(u, key))
  }

  /** No two stored users share an id or an email (the email column is unique). */
  ghost predicate UniqueKeys(s: seq<User>) {
    forall i, j :: 0 <= i < j < |s| ==> s[i].id != s[j].id && s[i].email != s[j].email
  }

  /** With unique emails, the login name picks out one stored user. */
  lemma UsernameIdentifiesUser(s: seq<User>, u: User, v: User)
    requires UniqueKeys(s) && u in s && v in s
    ensures Username(u) == Username(v) <==> u == v
  {
    var i :| 0 <= i < |s| && s[i] == u;
    var j :| 0 <= j < |s| && s[j] == v;
    if i < j {
      assert s[i].email != s[j].email;
    } else if j < i {
      assert s[j].email != s[i].email;
    }
  }

  /** Load by id, update and save: the update applied to the user with that id, and
      nothing at all when there is none. */
  function UpdateById(s: seq<User>, id: nat, f: User -> User): (r: seq<User>)
    ensures |r| == |s|
    ensures IndexOf(s, ById(id)).None? ==> r == s
    ensures IndexOf(s, ById(id)).Some? ==> r == s[IndexOf(s, ById(id)).value := f(s[IndexOf(s, ById(id)).value])]
  {
    match IndexOf(s, ById(id))
    case None => s
    case Some(i) => s[i := f(s[i])]
  }

  /** Replacing one user by another with the same id and email keeps the keys unique. */
  lemma ReplaceKeepsKeysUnique(s: seq<User>, i: nat, u: User)
    requires UniqueKeys(s) && i < |s|
    requires u.id == s[i].id && u.email == s[i].email
    ensures UniqueKeys(s[i := u])
  {
    var s' := s[i := u];
    forall a, b | 0 <= a < b < |s'|
      ensures s'[a].id != s'[b].id && s'[a].email != s'[b].email
    {
      assert s'[a].id == s[a].id && s'[a].email == s[a].email;
      assert s'[b].id == s[b].id && s'[b].email == s[b].email;
    }
  }

  /** `createUser` on the submitted user: the encoded password, unverified, active,
      not deleted, under the id the database assigns. */
  function Registered(draft: User, id: nat, encodedPassword: string): (r: User)
    ensures r.isActive && !r.isDeleted && !r.isVerified && !IsEnabled(r)
    ensures r.id == id && r.password == encodedPassword
    ensures r.(id := draft.id, password := draft.password, isVerified := draft.isVerified,
               isActive := draft.isActive, isDeleted := draft.isDeleted) == draft
  {
    draft.(id := id, password := encodedPassword, isVerified := false, isActive := true, isDeleted := false)
  }

  /** `deleteUser`: a soft delete, which also disables the account. */
  function SoftDeleted(u: User): (r: User)
    ensures !r.isActive && r.isDeleted && !IsEnabled(r)
    ensures r.(isActive := u.isActive, isDeleted := u.isDeleted) == u
  {
    u.(isActive := false, isDeleted := true)
  }

  /** `activateUser`: active and not deleted, whatever it was before. */
  function Activated(u: User): (r: User)
    ensures r.isActive && !r.isDeleted
    ensures IsEnabled(r) <==> u.isVerified
    ensures r.(isActive := u.isActive, isDeleted := u.isDeleted) == u
  {
    u.(isActive := true, isDeleted := false)
  }

  /** `deactivateUser`: inactive; the deletion flag is left as it was. */
  function Deactivated(u: User): (r: User)
    ensures !r.isActive && r.isDeleted == u.isDeleted && !IsEnabled(r)
    ensures r.(isActive := u.isActive) == u
  {
    u.(isActive := false)
  }

  /** `verifyUser`: verified, so enabled exactly when active. */
  function Verified(u: User): (r: User)
    ensures r.isVerified && (IsEnabled(r) <==> u.isActive)
    ensures r.(isVerified := u.isVerified) == u
  {
    u.(isVerified := true)
  }

  /** `changePassword` once the old password matched: only the password changes. */
  function PasswordChanged(u: User, encodedPassword: string): (r: User)
    ensures r.password == encodedPassword && r.(password := u.password) == u
  {
    u.(password := encodedPassword)
  }

  /** `resetPassword`: the new password, and the reset token and its expiry cleared. */
  function PasswordReset(u: User, encodedPassword: string): (r: User)
    ensures r.password == encodedPassword && r.resetPasswordToken.None? && r.resetPasswordExpires.None?
    ensures r.(password := u.password, resetPasswordToken := u.resetPasswordToken,
               resetPasswordExpires := u.resetPasswordExpires) == u
  {
    u.(password := encodedPassword, resetPasswordToken := None, resetPasswordExpires := None)
  }

  /** `updateLastLogin`: the login time recorded, the counter reset and any lock
      lifted, so the account reads as non-locked at every instant. */
  function LoggedIn(u: User, now: Instant): (r: User)
    ensures r.lastLogin == Some(now) && r.loginAttempts == 0 && r.lockedUntil.None?
    ensures forall t :: IsAccountNonLocked(r, t) && IsAccountNonLockedIntended(r, t)
    ensures r.(lastLogin := u.lastLogin, loginAttempts := u.loginAttempts, lockedUntil := u.lockedUntil) == u
  {
    u.(lastLogin := Some(now), loginAttempts := 0, lockedUntil := None)
  }

  /** `unlockAccount`: the counter reset and any lock lifted. */
  function Unlocked(u: User): (r: User)
    ensures r.loginAttempts == 0 && r.lockedUntil.None?
    ensures forall t :: IsAccountNonLocked(r, t) && IsAccountNonLockedIntended(r, t)
    ensures r.(loginAttempts := u.loginAttempts, lockedUntil := u.lockedUntil) == u
  {
    u.(loginAttempts := 0, lockedUntil := None)
  }

  /** `incrementLoginAttempts`: one more failed attempt, counted in a Java `int`; from
      the fifth on, the account is locked for thirty minutes from now, and below
      that any earlier lock is left as it was. */
  function FailedLogin(u: User, now: Instant): (r: User)
    ensures r.loginAttempts == Wrap32(u.loginAttempts + 1)
    ensures r.loginAttempts >= MaxLoginAttempts ==> r.lockedUntil == Some(now + LockMinutes)
    ensures r.loginAttempts < MaxLoginAttempts ==> r.lockedUntil == u.lockedUntil
    ensures r.(loginAttempts := u.loginAttempts, lockedUntil := u.lockedUntil) == u
  {
    var attempts := Wrap32(u.loginAttempts + 1);
    var counted := u.(loginAttempts := attempts);
    if attempts >= 5 then counted.(lockedUntil := Some(now + 30)) else counted
  }

  /** A run of failed logins, at the given instants in order. */
  function FailedLogins(u: User, times: seq<Instant>): User
    decreases |times|
  {
    if |times| == 0 then u
    else FailedLogin(FailedLogins(u, times[..|times| - 1]), times[|times| - 1])
  }

  /** Counting from a non-negative count without overflow, each failure adds one;
      below five failures in total the lock is untouched, and from the fifth on the
      account is locked for thirty minutes from the latest failure. */
  lemma {:induction false} RepeatedFailures(u: User, times: seq<Instant>)
    requires 0 <= u.loginAttempts && u.loginAttempts + |times| <= Int32Max
    ensures FailedLogins(u, times).loginAttempts == u.loginAttempts + |times|
    ensures u.loginAttempts + |times| < MaxLoginAttempts ==> FailedLogins(u, times).lockedUntil == u.lockedUntil
    ensures |times| > 0 && u.loginAttempts + |times| >= MaxLoginAttempts ==>
              FailedLogins(u, times).lockedUntil == Some(times[|times| - 1] + LockMinutes)
  {
    if |times| > 0 {
      RepeatedFailures(u, times[..|times| - 1]);
    }
  }

  /** Five failures in a row on a fresh account lock it for thirty minutes from the
      fifth; four leave it unlocked. */
  lemma FiveFailuresLock(u: User, t1: Instant, t2: Instant, t3: Instant, t4: Instant, t5: Instant)
    requires u.loginAttempts == 0 && u.lockedUntil.None?
    ensures FailedLogins(u, [t1, t2, t3, t4]).lockedUntil.None?
    ensures FailedLogins(u, [t1, t2, t3, t4, t5]).lockedUntil == Some(t5 + 30)
  {
    RepeatedFailures(u, [t1, t2, t3, t4]);
    RepeatedFailures(u, [t1, t2, t3, t4, t5]);
  }

  /** The failure that locks the account: as written the account then reads as
      non-locked for the whole thirty minutes of the lock, while the intended test
      reads it as locked for exactly those thirty minutes. */
  lemma LockingFailureReadsNonLocked(u: User, now: Instant)
    requires u.loginAttempts == MaxLoginAttempts - 1
    ensures var r := FailedLogin(u, now);
      && r.lockedUntil == Some(now + LockMinutes)
      && (forall t :: now <= t < now + LockMinutes ==> IsAccountNonLocked(r, t) && !IsAccountNonLockedIntended(r, t))
      && (forall t :: t >= now + LockMinutes ==> !IsAccountNonLocked(r, t) && IsAccountNonLockedIntended(r, t))
  {
  }

  /** At the largest `int` the counter wraps to the smallest, which is below five:
      the failure then neither locks the account nor keeps a count of it. */
  lemma AttemptCounterWraps(u: User, now: Instant)
    requires u.loginAttempts == Int32Max
    ensures FailedLogin(u, now).loginAttempts == Int32Min
    ensures FailedLogin(u, now).lockedUntil == u.lockedUntil
  {
  }

  /** Delete and activate each overwrite both flags, so either undoes the other, and
      an account deleted and reactivated is enabled exactly when it is verified. */
  lemma DeleteAndActivateUndoEachOther(u: User)
    ensures Activated(SoftDeleted(u)) == Activated(u)
    ensures SoftDeleted(Activated(u)) == SoftDeleted(u)
    ensures IsEnabled(Activated(SoftDeleted(u))) <==> u.isVerified
  {
  }

  /** Deactivation differs from deletion: a deactivated account keeps its deletion
      flag, and activation clears it again. */
  lemma DeactivateIsNotDelete(u: User)
    requires !u.isDeleted
    ensures !Deactivated(u).isDeleted && SoftDeleted(u).isDeleted
    ensures Activated(Deactivated(SoftDeleted(u))) == Activated(u)
  {
  }

  /** A registered user is disabled until verified, and enabled once verified. */
  lemma RegisteredThenVerifiedIsEnabled(draft: User, id: nat, encodedPassword: string)
    ensures !IsEnabled(Registered(draft, id, encodedPassword))
    ensures IsEnabled(Verified(Registered(draft, id, encodedPassword)))
  {
  }

  /** A successful login and an unlock agree on everything but the login time, and
      the next failure after either counts from one. */
  lemma LoginResetsLikeUnlock(u: User, now: Instant, later: Instant)
    ensures LoggedIn(u, now) == Unlocked(u).(lastLogin := Some(now))
    ensures FailedLogin(LoggedIn(u, now), later).loginAttempts == 1
    ensures FailedLogin(Unlocked(u), later).lockedUntil.None?
  {
  }

  class UserService {
    var users: seq<User>
    var nextId: nat
    /** `PasswordEncoder.encode` and `PasswordEncoder.matches(raw, encoded)`. */
    const encode: string -> string
    const matches: (string, string) -> bool

    /** Keys are unique, and every stored id was handed out before `nextId`. */
    ghost predicate Valid()
      reads this
    {
      UniqueKeys(users) && forall u :: u in users ==> u.id < nextId
    }

    /** An encoder whose encoding of a password matches that password. */
    ghost predicate EncoderSound() {
      forall raw :: matches(raw, encode(raw))
    }

    constructor (encode: string -> string, matches: (string, string) -> bool)
      ensures Valid() && users == [] && nextId == 1
      ensures this.encode == encode && this.matches == matches
    {
      users := [];
      nextId := 1;
      this.encode := encode;
      this.matches := matches;
    }

    /** `existsByEmail`. */
    function ExistsByEmail(email: string): (r: bool)
      reads this
      ensures r <==> exists u :: u in users && u.email == email
    {
      IndexOf(users, ByEmail(email)).Some?
    }

    /** `createUser`: rejects a taken email; otherwise stores the submitted user,
        registered under the next id. */
    method CreateUser(draft: User) returns (r: Result<User>)
      requires Valid()
      modifies this
      ensures Valid()
      ensures r.Err? <==> exists u :: u in old(users) && u.email == draft.email
      ensures r.Err? ==> r.error == EmailAlreadyExists(draft.email) && users == old(users) && nextId == old(nextId)
      ensures r.Ok? ==> r.value == Registered(draft, old(nextId), encode(draft.password))
      ensures r.Ok? ==> users == old(users) + [r.value] && nextId == old(nextId) + 1
    {
      if IndexOf(users, ByEmail(draft.email)).Some? {
        return Err(EmailAlreadyExists(draft.email));
      }
      var user := draft;
      user := user.(password := encode(draft.password));
      user := user.(isVerified := false);
      user := user.(isActive := true);
      user := user.(isDeleted := false);
      user := user.(id := nextId);
      users := users + [user];
      nextId := nextId + 1;
      r := Ok(user);
    }

    /** `deleteUser`. */
    method DeleteUser(id: nat)
      requires Valid()
      modifies this
      ensures Valid() && nextId == old(nextId)
      ensures users == UpdateById(old(users), id, SoftDeleted)
    {
      var found := IndexOf(users, ById(id));
      if found.Some? {
        var i := found.value;
        var user := users[i];
        user := user.(isActive := false);
        user := user.(isDeleted := true);
        ReplaceKeepsKeysUnique(users, i, user);
        users := users[i := user];
      }
    }

    /** `activateUser`. */
    method ActivateUser(id: nat)
      requires Valid()
      modifies this
      ensures Valid() && nextId == old(nextId)
      ensures users == UpdateById(old(users), id, Activated)
    {
      var found := IndexOf(users, ById(id));
      if found.Some? {
        var i := found.value;
        var user := users[i];
        user := user.(isActive := true);
        user := user.(isDeleted := false);
        ReplaceKeepsKeysUnique(users, i, user);
        users := users[i := user];
      }
    }

    /** `deactivateUser`. */
    method DeactivateUser(id: nat)
      requires Valid()
      modifies this
      ensures Valid() && nextId == old(nextId)
      ensures users == UpdateById(old(users), id, Deactivated)
    {
      var found := IndexOf(users, ById(id));
      if found.Some? {
        var i := found.value;
        var user := users[i].(isActive := false);
        ReplaceKeepsKeysUnique(users, i, user);
        users := users[i := user];
      }
    }

    /** `verifyUser`. */
    method VerifyUser(id: nat)
      requires Valid()
      modifies this
      ensures Valid() && nextId == old(nextId)
      ensures users == UpdateById(old(users), id, Verified)
    {
      var found := IndexOf(users, ById(id));
      if found.Some? {
        var i := found.value;
        var user := users[i].(isVerified := true);
        ReplaceKeepsKeysUnique(users, i, user);
        users := users[i := user];
      }
    }

    /** `changePassword`: a missing user is ignored; a wrong old password is
        rejected and nothing is saved; otherwise only the password is replaced, and
        with a sound encoder the new password is the one that matches. */
    method ChangePassword(id: nat, oldPassword: string, newPassword: string) returns (r: Result<()>)
      requires Valid()
      modifies this
      ensures Valid() && nextId == old(nextId)
      ensures IndexOf(old(users), ById(id)).None? ==> r.Ok? && users == old(users)
      ensures IndexOf(old(users), ById(id)).Some? ==>
        var i := IndexOf(old(users), ById(id)).value;
        && (r.Ok? <==> matches(oldPassword, old(users)[i].password))
        && (r.Err? ==> r.error == InvalidOldPassword && users == old(users))
        && (r.Ok? ==> users == old(users)[i := PasswordChanged(old(users)[i], encode(newPassword))])
        && (r.Ok? && EncoderSound() ==> matches(newPassword, users[i].password))
    {
      var found := IndexOf(users, ById(id));
      if found.None? {
        return Ok(());
      }
      var i := found.value;
      var user := users[i];
      if !matches(oldPassword, user.password) {
        return Err(InvalidOldPassword);
      }
      user := user.(password := encode(newPassword));
      ReplaceKeepsKeysUnique(users, i, user);
      users := users[i := user];
      r := Ok(());
    }

    /** `resetPassword`: looked up by email; an unknown email is ignored. */
    method ResetPassword(email: string, newPassword: string)
      requires Valid()
      modifies this
      ensures Valid() && nextId == old(nextId)
      ensures IndexOf(old(users), ByEmail(email)).None? ==> users == old(users)
      ensures IndexOf(old(users), ByEmail(email)).Some? ==>
        var i := IndexOf(old(users), ByEmail(email)).value;
        users == old(users)[i := PasswordReset(old(users)[i], encode(newPassword))]
    {
      var found := IndexOf(users, ByEmail(email));
      if found.Some? {
        var i := found.value;
        var user := users[i];
        user := user.(password := encode(newPassword));
        user := user.(resetPasswordToken := None);
        user := user.(resetPasswordExpires := None);
        ReplaceKeepsKeysUnique(users, i, user);
        users := users[i := user];
      }
    }

    /** `updateLastLogin`, with the clock reading `now`. */
    method UpdateLastLogin(id: nat, now: Instant)
      requires Valid()
      modifies this
      ensures Valid() && nextId == old(nextId)
      ensures users == UpdateById(old(users), id, (u: User) => LoggedIn(u, now))
    {
      var found := IndexOf(users, ById(id));
      if found.Some? {
        var i := found.value;
        var user := users[i];
        user := user.(lastLogin := Some(now));
        user := user.(loginAttempts := 0);
        user := user.(lockedUntil := None);
        ReplaceKeepsKeysUnique(users, i, user);
        users := users[i := user];
      }
    }

    /** `incrementLoginAttempts`, with the clock reading `now`. */
    method IncrementLoginAttempts(id: nat, now: Instant)
      requires Valid()
      modifies this
      ensures Valid() && nextId == old(nextId)
      ensures users == UpdateById(old(users), id, (u: User) => FailedLogin(u, now))
    {
      var found := IndexOf(users, ById(id));
      if found.Some? {
        var i := found.value;
        var user := users[i];
        var attempts := Wrap32(user.loginAttempts + 1);
        user := user.(loginAttempts := attempts);
        if attempts >= MaxLoginAttempts {
          user := user.(lockedUntil := Some(now + LockMinutes));
        }
        assert user == FailedLogin(users[i], now);
        ReplaceKeepsKeysUnique(users, i, user);
        users := users[i := user];
      }
    }

    /** `unlockAccount`. */
    method UnlockAccount(id: nat)
      requires Valid()
      modifies this
      ensures Valid() && nextId == old(nextId)
      ensures users == UpdateById(old(users), id, Unlocked)
    {
      var found := IndexOf(users, ById(id));
      if found.Some? {
        var i := found.value;
        var user := users[i];
        user := user.(loginAttempts := 0);
        user := user.(lockedUntil := None);
        ReplaceKeepsKeysUnique(users, i, user);
        users := users[i := user];
      }
    }
  }
}
