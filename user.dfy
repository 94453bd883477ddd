/** The User entity as Spring Security sees it: its role, the single authority it
    grants, the login name, the lock and enablement flags, and the display name. */
module Users {
  import opened Common
  import opened Text

  datatype UserRole = Patient | Doctor | Nurse | Admin

  /** `UserRole.name()`. */
  function RoleName(role: UserRole): string {
    match role
    case Patient => "PATIENT"
    case Doctor => "DOCTOR"
    case Nurse => "NURSE"
    case Admin => "ADMIN"
  }

  /** A stored user. The password is the encoded form the service saves;
      `isActive` and `isDeleted` are the soft-delete flags every entity carries. */
  datatype User = User(
    id: nat,
    firstName: string,
    lastName: string,
    email: string,
    password: string,
    role: UserRole,
    isVerified: bool,
    isActive: bool,
    isDeleted: bool,
    resetPasswordToken: Option<string>,
    resetPasswordExpires: Option<Instant>,
    lastLogin: Option<Instant>,
    loginAttempts: Int32,
    lockedUntil: Option<Instant>)

  const AuthorityPrefix: string := "ROLE_"

  /** `getAuthorities`: exactly one authority, the role's name behind "ROLE_". */
  function Authorities(u: User): (r: seq<string>)
    ensures |r| == 1 && |r[0]| > |AuthorityPrefix| && r[0][..|AuthorityPrefix|] == AuthorityPrefix
    ensures RoleOfAuthority(r[0]) == Some(u.role)
  {
    ["ROLE_" + RoleName(u.role)]
  }

  /** The role an authority string names, if any: the inverse of `Authorities`. */
  function RoleOfAuthority(a: string): Option<UserRole> {
    if a == "ROLE_PATIENT" then Some(Patient)
    else if a == "ROLE_DOCTOR" then Some(Doctor)
    else if a == "ROLE_NURSE" then Some(Nurse)
    else if a == "ROLE_ADMIN" then Some(Admin)
    else None
  }

  /** Two users grant the same authorities exactly when they have the same role. */
  lemma AuthoritiesDetermineRole(u: User, v: User)
    ensures Authorities(u) == Authorities(v) <==> u.role == v.role
  {
    if Authorities(u) == Authorities(v) {
      assert RoleOfAuthority(Authorities(u)[0]) == RoleOfAuthority(Authorities(v)[0]);
    }
  }

  /** `getUsername`: users log in with their email address. */
  function Username(u: User): string {
    u.email
  }

  /** `isAccountNonExpired` and `isCredentialsNonExpired`: neither ever expires. */
  predicate IsAccountNonExpired(u: User) {
    true
  }

  predicate IsCredentialsNonExpired(u: User) {
    true
  }

  lemma NothingEverExpires(u: User)
    ensures IsAccountNonExpired(u) && IsCredentialsNonExpired(u)
  {
  }

  /** `isEnabled`: active and verified. */
  predicate IsEnabled(u: User) {
    u.isActive && u.isVerified
  }

  /** `isAccountNonLocked` as written: no lock, or a lock that is still in force. */
  predicate IsAccountNonLocked(u: User, now: Instant) {
    u.lockedUntil.None? || u.lockedUntil.value > now
  }

  /** What the lock is meant to say: no lock, or a lock that has run out. */
  predicate IsAccountNonLockedIntended(u: User, now: Instant) {
    u.lockedUntil.None? || u.lockedUntil.value <= now
  }

  /** The two agree on an account that was never locked; on a locked account the
      written test answers exactly the opposite of the intended one. */
  lemma LockTestIsInverted(u: User, now: Instant)
    ensures u.lockedUntil.None? ==> IsAccountNonLocked(u, now) && IsAccountNonLockedIntended(u, now)
    ensures u.lockedUntil.Some? ==> (IsAccountNonLocked(u, now) <==> !IsAccountNonLockedIntended(u, now))
  {
  }

  /** A user locked until 10:30 is reported non-locked at 10:00, while the lock is in
      force, and locked at 10:30 and for ever after, once it has run out. */
  lemma LockedUserReportedNonLocked(u: User)
    requires u.lockedUntil == Some(630)
    ensures IsAccountNonLocked(u, 600) && !IsAccountNonLockedIntended(u, 600)
    ensures forall t :: t >= 630 ==> !IsAccountNonLocked(u, t) && IsAccountNonLockedIntended(u, t)
  {
  }

  /** `getFullName`: the first name, one space, the last name. */
  function FullName(u: User): (r: string)
    ensures |r| == |u.firstName| + 1 + |u.lastName|
    ensures ' ' !in u.firstName ==> SplitAtFirst(r, ' ') == (u.firstName, u.lastName)
  {
    var r := u.firstName + " " + u.lastName;
    if ' ' in u.firstName then r
    else SplitAtFirstUndoesJoin(u.firstName, ' ', u.lastName); r
  }

  /** With a space inside the first name, different names give the same full name. */
  lemma FullNamesCanCollide(u: User)
    requires u.firstName == "Mary Ann" && u.lastName == "Lee"
    ensures var v := u.(firstName := "Mary", lastName := "Ann Lee");
      FullName(v) == FullName(u) && v != u
  {
    var v := u.(firstName := "Mary", lastName := "Ann Lee");
    assert u.firstName + " " + u.lastName == v.firstName + " " + v.lastName;
  }
}
